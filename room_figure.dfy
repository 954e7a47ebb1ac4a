/**
 create_room_figure of fig_room.py: the SQL text it sends for a selection of borough names,
 the room-type whitelist applied to the rows that come back, the choice between one box
 series per borough and a single-colour chart, and the y-axis range.
 */
module RoomFigure {
  import opened Options

  // ---------------------------------------------------------------------------
  // The query

  /** The fixed part of the query, ending in the always-true condition a filter is appended to. */
  const BaseQuery: string :=
    "\n"
    + "        SELECT \n"
    + "            b.borough_name AS borough,\n"
    + "            l.listing_id AS listing_id,\n"
    + "            h.host_name AS host_name,\n"
    + "            l.room_type AS room_type,\n"
    + "            l.price AS price\n"
    + "        FROM \n"
    + "            listings l\n"
    + "        JOIN \n"
    + "            locations loc ON l.listing_id = loc.listing_id\n"
    + "        JOIN \n"
    + "            borough b ON loc.borough_id = b.borough_id\n"
    + "        JOIN\n"
    + "            hosts h ON l.host_id = h.host_id\n"
    + "        WHERE 1=1\n"
    + "        "

  const ClausePrefix: string := " AND b.borough_name IN ('"
  const ClauseSuffix: string := "')"

  /** What joining the names for the IN list puts between two names (fig_room.py:44). */
  const Separator: string := "', '"

  /** A selection that is present and not empty (fig_room.py:43, 64). */
  predicate HasSelection(selected: Option<seq<string>>)
  {
    selected.Some? && |selected.value| > 0
  }

  /** The borough restriction appended to the base query (fig_room.py:43-45). */
  function BoroughClause(selected: Option<seq<string>>): (r: string)
    ensures r == [] <==> !HasSelection(selected)
  {
    if HasSelection(selected) then ClausePrefix + Join(selected.value) + ClauseSuffix else ""
  }

  /** The whole query text. */
  function RoomQuery(selected: Option<seq<string>>): (q: string)
    ensures |q| >= |BaseQuery| && q[..|BaseQuery|] == BaseQuery
  {
    BaseQuery + BoroughClause(selected)
  }

  // ---------------------------------------------------------------------------
  // Reading the restriction back out of a query

  /** The borough restriction a query states. */
  datatype Restriction = Unrestricted | RestrictedTo(names: seq<string>) | Unreadable

  ghost predicate QuoteFree(s: string)
  {
    forall i :: 0 <= i < |s| ==> s[i] != '\''
  }

  /** Cuts the text between the outer quotes of an IN list at each separator. */
  function SplitList(s: string): (r: seq<string>)
    ensures |r| >= 1
    decreases |s|
  {
    if s == [] then [""]
    else if |s| >= |Separator| && s[..|Separator|] == Separator then [""] + SplitList(s[|Separator|..])
    else
      var rest := SplitList(s[1..]);
      [[s[0]] + rest[0]] + rest[1..]
  }

  /** The restriction stated by a query: none, the names of its IN list, or not a query of this shape. */
  function ReadRestriction(q: string): Restriction
  {
    if |q| < |BaseQuery| || q[..|BaseQuery|] != BaseQuery then Unreadable
    else
      var c := q[|BaseQuery|..];
      if c == [] then Unrestricted
      else if |c| >= |ClausePrefix| + |ClauseSuffix| && c[..|ClausePrefix|] == ClausePrefix
              && c[|c| - |ClauseSuffix|..] == ClauseSuffix
      then RestrictedTo(SplitList(c[|ClausePrefix|..|c| - |ClauseSuffix|]))
      else Unreadable
  }

  /** A quote-free name is one piece. */
  lemma {:induction false} SplitQuoteFree(x: string)
    requires QuoteFree(x)
    ensures SplitList(x) == [x]
  {
    if x != [] {
      assert x[0] != Separator[0];
      SplitQuoteFree(x[1..]);
      assert [x[0]] + x[1..] == x;
    }
  }

  /** A quote-free name followed by the separator is cut off as the first piece. */
  lemma {:induction false} SplitAfterName(x: string, y: string)
    requires QuoteFree(x)
    ensures SplitList(x + Separator + y) == [x] + SplitList(y)
  {
    if x == [] {
      assert x + Separator + y == Separator + y;
      assert (Separator + y)[..|Separator|] == Separator;
      assert (Separator + y)[|Separator|..] == y;
    } else {
      var s := x + Separator + y;
      assert s[0] == x[0] && x[0] != Separator[0];
      assert s[1..] == x[1..] + Separator + y;
      SplitAfterName(x[1..], y);
      assert [x[0]] + x[1..] == x;
    }
  }

  /**
   The names one after the other, with the separator between each two (fig_room.py:44).
   Cutting the result at the separators gives back the names when none contains a quote.
   */
  function Join(names: seq<string>): (r: string)
    ensures names != [] && (forall i :: 0 <= i < |names| ==> QuoteFree(names[i])) ==> SplitList(r) == names
  {
    if names == [] then ""
    else if |names| == 1 then
      assert QuoteFree(names[0]) ==> SplitList(names[0]) == names by {
        if QuoteFree(names[0]) {
          SplitQuoteFree(names[0]);
        }
      }
      names[0]
    else
      var rest := Join(names[1..]);
      assert (forall i :: 0 <= i < |names| ==> QuoteFree(names[i])) ==>
             SplitList(names[0] + Separator + rest) == names by {
        if forall i :: 0 <= i < |names| ==> QuoteFree(names[i]) {
          assert forall i :: 0 <= i < |names[1..]| ==> QuoteFree(names[1..][i]) by {
            forall i | 0 <= i < |names[1..]| ensures QuoteFree(names[1..][i]) {
              assert names[1..][i] == names[i + 1];
            }
          }
          SplitAfterName(names[0], rest);
          assert [names[0]] + names[1..] == names;
        }
      }
      names[0] + Separator + rest
  }

  /**
   The query restricts the boroughs exactly when the selection is present and non-empty,
   and then to exactly the selected names, in their order.
   */
  lemma QueryRestriction(selected: Option<seq<string>>)
    requires selected.Some? ==> forall i :: 0 <= i < |selected.value| ==> QuoteFree(selected.value[i])
    ensures ReadRestriction(RoomQuery(selected))
         == if HasSelection(selected) then RestrictedTo(selected.value) else Unrestricted
  {
    var q := RoomQuery(selected);
    var c := BoroughClause(selected);
    assert q[|BaseQuery|..] == c;
    if HasSelection(selected) {
      var j := Join(selected.value);
      assert c[..|ClausePrefix|] == ClausePrefix;
      assert c[|c| - |ClauseSuffix|..] == ClauseSuffix;
      assert c[|ClausePrefix|..|c| - |ClauseSuffix|] == j;
    }
  }

  // ---------------------------------------------------------------------------
  // Rows, chart style, y axis

  /** One row of the query result. */
  datatype Row = Row(borough: string, listingId: int, hostName: string, roomType: string, price: real)

  /** The room types the chart shows. */
  const RoomTypes: seq<string> := ["Private room", "Entire home/apt", "Hotel room", "Shared room"]

  /** The rows whose room type is one of the four listed types, in order (fig_room.py:51-52). */
  function KeepKnownRoomTypes(rows: seq<Row>): (r: seq<Row>)
    ensures forall x :: x in r <==> x in rows && x.roomType in RoomTypes
  {
    if rows == [] then []
    else (if rows[0].roomType in RoomTypes then [rows[0]] else []) + KeepKnownRoomTypes(rows[1..])
  }

  /** The row filter keeps the rows' order: it distributes over concatenation. */
  lemma {:induction false} KeepKnownRoomTypesConcat(a: seq<Row>, b: seq<Row>)
    ensures KeepKnownRoomTypes(a + b) == KeepKnownRoomTypes(a) + KeepKnownRoomTypes(b)
  {
    if a == [] {
      assert a + b == b;
    } else {
      assert (a + b)[0] == a[0];
      assert (a + b)[1..] == a[1..] + b;
      KeepKnownRoomTypesConcat(a[1..], b);
    }
  }

  /** How the boxes are drawn: one colour per borough, or a single colour for all rows. */
  datatype BoxStyle = ByBorough(title: string) | SingleColor(title: string, color: string)

  /** The two px.box calls of fig_room.py:64-84. */
  function RoomBoxStyle(selected: Option<seq<string>>): (r: BoxStyle)
    ensures r.ByBorough? <==> HasSelection(selected)
    ensures r.SingleColor? ==> r.color == "#9c9c7c"
  {
    if HasSelection(selected) then ByBorough("Price Distribution by Room Type and Borough")
    else SingleColor("Price Distribution by Room Type", "#9c9c7c")
  }

  /** The y-axis range: the one passed in, or 0 to 1000. */
  function YAxisRange(yRange: Option<seq<int>>): (r: seq<int>)
    ensures yRange.Some? ==> r == yRange.value
    ensures yRange.None? ==> r == [0, 1000]
  {
    if yRange.Some? then yRange.value else [0, 1000]
  }

  /** The parts of the room figure this model follows. */
  datatype RoomChart = RoomChart(query: string, rows: seq<Row>, style: BoxStyle, yAxis: seq<int>)

  /**
   create_room_figure, with the database given as the function `db` from query text to
   result rows.
   */
  function CreateRoomFigure(selected: Option<seq<string>>, yRange: Option<seq<int>>, db: string -> seq<Row>): (r: RoomChart)
    ensures forall x :: x in r.rows <==> x in db(r.query) && x.roomType in RoomTypes
    ensures r.style.ByBorough? <==> HasSelection(selected)
    ensures |r.query| >= |BaseQuery| && r.query[..|BaseQuery|] == BaseQuery
    ensures |r.query| == |BaseQuery| <==> !HasSelection(selected)
    ensures (selected.Some? ==> forall i :: 0 <= i < |selected.value| ==> QuoteFree(selected.value[i])) ==>
      ReadRestriction(r.query) == if HasSelection(selected) then RestrictedTo(selected.value) else Unrestricted
    ensures r.yAxis == if yRange.Some? then yRange.value else [0, 1000]
  {
    var q := RoomQuery(selected);
    assert (selected.Some? ==> forall i :: 0 <= i < |selected.value| ==> QuoteFree(selected.value[i])) ==>
      ReadRestriction(q) == if HasSelection(selected) then RestrictedTo(selected.value) else Unrestricted by {
      if selected.Some? ==> forall i :: 0 <= i < |selected.value| ==> QuoteFree(selected.value[i]) {
        QueryRestriction(selected);
      }
    }
    RoomChart(q, KeepKnownRoomTypes(db(q)), RoomBoxStyle(selected), YAxisRange(yRange))
  }
}
