/** The layout of the headers in columns (`format_sysinfo` in landscape/sysinfo/sysinfo.py).
    Lengths and widths are exact integers. */
module Sysinfo {
  import opened Common

  datatype Header = Header(name: string, value: string)

  /** The widths of a column's names and values. */
  datatype Size = Size(name: nat, value: nat)

  /** The header lines; an exception; or a search for the number of columns that never ends. */
  datatype Outcome = Lines(lines: seq<string>) | ZeroDivision | Endless

  const VALUE_SEPARATOR := ": "

  function Spaces(n: nat): string {
    seq(n, i => ' ')
  }

  /** The least integer that is at least a / b. */
  function Ceil(a: int, b: int): int
    requires b != 0
  {
    if b > 0 then -((-a) / b) else -(a / (-b))
  }

  /** The place in the list of the header in a row of a column. */
  function Place(per: int, column: int, row: int): int {
    column * per + row
  }

  // ---------------------------------------------------------------------------------
  // What the loops compute
  // ---------------------------------------------------------------------------------

  function Shortest(headers: seq<Header>, width: int): int {
    if headers == [] then width
    else
      var init, last := headers[..|headers| - 1], headers[|headers| - 1];
      Min(Shortest(init, width), |last.name| + |last.value| + 2)
  }

  function Widest(headers: seq<Header>): Size {
    if headers == [] then Size(0, 0)
    else
      var size, last := Widest(headers[..|headers| - 1]), headers[|headers| - 1];
      Size(Max(size.name, |last.name|), Max(size.value, |last.value|))
  }

  /** The first `rows` headers of a column; the last columns may have fewer or none. */
  function Column(headers: seq<Header>, per: nat, column: nat, rows: nat): seq<Header> {
    var from := Place(per, column, 0);
    if from >= |headers| then [] else headers[from..Min(from + rows, |headers|)]
  }

  function Sizes(headers: seq<Header>, per: nat, columns: nat): (r: seq<Size>)
    ensures |r| == columns
    ensures forall c :: 0 <= c < columns ==> r[c] == Widest(Column(headers, per, c, per))
  {
    seq(columns, c requires 0 <= c => Widest(Column(headers, per, c, per)))
  }

  /** The length of the columns side by side. */
  function Total(sizes: seq<Size>, separator: nat): nat {
    if sizes == [] then 0
    else
      var init, last := sizes[..|sizes| - 1], sizes[|sizes| - 1];
      Total(init, separator) + (if init == [] then 0 else separator) + last.name + last.value + |VALUE_SEPARATOR|
  }

  /** The length the loop compares with the width. Of a negative number of columns it visits
      none. */
  ghost function TotalOf(headers: seq<Header>, columns: int, separator: nat): nat
    requires columns != 0
  {
    if columns < 0 then Total([], separator)
    else
      CeilFacts(|headers|, columns);
      Total(Sizes(headers, Ceil(|headers|, columns), columns), separator)
  }

  /** With so many columns the loop stops. */
  ghost predicate Stops(headers: seq<Header>, columns: int, separator: nat, width: int)
    requires columns != 0
  {
    columns == 1 || TotalOf(headers, columns, separator) < width
  }

  /** The loop, counting down from `start`, comes to a number of columns with which it stops
      before it comes to zero. */
  ghost predicate Ends(headers: seq<Header>, start: int, separator: nat, width: int) {
    exists c :: c <= start && c != 0 && Stops(headers, c, separator, width) && !(c < 0 <= start)
  }

  function Cell(header: Header, size: Size): string {
    header.name + VALUE_SEPARATOR + Spaces(Pad(size.name, |header.name|)) + header.value
  }

  /** How far a text of some length is from a width; a text that is too long gets no padding. */
  function Pad(width: nat, length: nat): nat {
    if width >= length then width - length else 0
  }

  /** What column `c` adds to a row. */
  function Segment(headers: seq<Header>, per: nat, sizes: seq<Size>, separator: string, row: nat, c: nat): string
    requires c < |sizes|
  {
    var i := Place(per, c, row);
    if i >= |headers| then ""
    else
      (if c > 0 then separator else "") + Cell(headers[i], sizes[c])
      + (if |headers| > Place(per, c + 1, row) then Spaces(Pad(sizes[c].value, |headers[i].value|)) else "")
  }

  /** The first `columns` columns of a row, without the indentation. */
  function Row(headers: seq<Header>, per: nat, sizes: seq<Size>, separator: string, row: nat, columns: nat): string
    requires columns <= |sizes|
  {
    if columns == 0 then ""
    else Row(headers, per, sizes, separator, row, columns - 1)
         + Segment(headers, per, sizes, separator, row, columns - 1)
  }

  // ---------------------------------------------------------------------------------
  // The loops
  // ---------------------------------------------------------------------------------

  method MinLength(headers: seq<Header>, width: int) returns (minLength: int)
    ensures minLength == Shortest(headers, width)
  {
    minLength := width;
    for i := 0 to |headers|
      invariant minLength == Shortest(headers[..i], width)
    {
      assert headers[..i + 1][..i] == headers[..i];
      minLength := Min(minLength, |headers[i].name| + |headers[i].value| + 2);
    }
    assert headers[..|headers|] == headers;
  }

  /** The widths of one column. */
  method MeasureColumn(headers: seq<Header>, per: nat, column: nat) returns (size: Size)
    ensures size == Widest(Column(headers, per, column, per))
  {
    hide Widest, Column, Place;
    ColumnNone(headers, per, column);
    var widestName: nat, widestValue: nat := 0, 0;
    for row := 0 to per
      invariant Size(widestName, widestValue) == Widest(Column(headers, per, column, row))
    {
      ColumnGrows(headers, per, column, row);
      var i := Place(per, column, row);
      if i < |headers| {
        widestName := Max(widestName, |headers[i].name|);
        widestValue := Max(widestValue, |headers[i].value|);
      }
    }
    size := Size(widestName, widestValue);
  }

  /** The widths of all columns, and the length of a full row. */
  method Measure(headers: seq<Header>, per: nat, columns: nat, separator: nat)
    returns (sizes: seq<Size>, totalLength: nat)
    ensures sizes == Sizes(headers, per, columns)
    ensures totalLength == Total(sizes, separator)
  {
    hide Widest, Column;
    sizes, totalLength := [], 0;
    for column := 0 to columns
      invariant |sizes| == column && sizes == Sizes(headers, per, columns)[..column]
      invariant totalLength == Total(sizes, separator)
    {
      var size := MeasureColumn(headers, per, column);
      if column > 0 {
        totalLength := totalLength + separator;
      }
      totalLength := totalLength + size.name + size.value + |VALUE_SEPARATOR|;
      assert (sizes + [size])[..column] == sizes;
      sizes := sizes + [size];
    }
  }

  /** The search for the number of columns: the greatest that fits, or one. */
  method FindColumns(headers: seq<Header>, start: int, separator: nat, width: int)
    returns (columns: int, per: nat, sizes: seq<Size>)
    requires start >= 1
    ensures 1 <= columns <= start && Stops(headers, columns, separator, width)
    ensures forall c :: columns < c <= start ==> !Stops(headers, c, separator, width)
    ensures per == Ceil(|headers|, columns) && sizes == Sizes(headers, per, columns)
  {
    hide Total, Ceil;
    columns := start;
    var totalLength;
    while true
      invariant 1 <= columns <= start
      invariant forall c :: columns < c <= start ==> !Stops(headers, c, separator, width)
      decreases columns
    {
      CeilFacts(|headers|, columns);
      per := Ceil(|headers|, columns);
      sizes, totalLength := Measure(headers, per, columns, separator);
      if columns == 1 || totalLength < width {
        break;
      }
      columns := columns - 1;
    }
  }

  /** One line. */
  method BuildLine(headers: seq<Header>, per: nat, sizes: seq<Size>, separator: string, indent: string, row: nat)
    returns (line: string)
    ensures line == indent + Row(headers, per, sizes, separator, row, |sizes|)
  {
    line := indent;
    for column := 0 to |sizes|
      invariant line == indent + Row(headers, per, sizes, separator, row, column)
    {
      var i := column * per + row;
      if i < |headers| {
        var header, size := headers[i], sizes[column];
        var lead := if column > 0 then separator else "";
        line := line + lead + Cell(header, size);
        if |headers| > (column + 1) * per + row {
          line := line + Spaces(Pad(size.value, |header.value|));
        }
      }
      RowGrows(headers, per, sizes, separator, indent, row, column, line);
    }
  }

  /** A row with one more column. */
  lemma RowGrows(headers: seq<Header>, per: nat, sizes: seq<Size>, separator: string, indent: string, row: nat,
                 c: nat, line: string)
    requires c < |sizes|
    requires var i, before := Place(per, c, row), indent + Row(headers, per, sizes, separator, row, c);
             line == if i >= |headers| then before
                     else
                       var upTo := before + (if c > 0 then separator else "") + Cell(headers[i], sizes[c]);
                       if |headers| > Place(per, c + 1, row) then upTo + Spaces(Pad(sizes[c].value, |headers[i].value|))
                       else upTo
    ensures line == indent + Row(headers, per, sizes, separator, row, c + 1)
  {
    hide Cell, Spaces, Pad;
    var i, before := Place(per, c, row), Row(headers, per, sizes, separator, row, c);
    if i < |headers| {
      var lead := if c > 0 then separator else "";
      var cell := Cell(headers[i], sizes[c]);
      var pad := if |headers| > Place(per, c + 1, row) then Spaces(Pad(sizes[c].value, |headers[i].value|)) else "";
      RegroupRow(indent, before, lead, cell, pad);
      assert Segment(headers, per, sizes, separator, row, c) == lead + cell + pad;
    } else {
      assert before + "" == before;
    }
  }

  lemma RegroupRow(a: string, b: string, c: string, d: string, e: string)
    ensures a + b + c + d + e == a + (b + (c + d + e))
    ensures e == "" ==> a + b + c + d + e == a + b + c + d
  {
  }

  /** All lines. */
  method BuildLines(headers: seq<Header>, per: nat, sizes: seq<Size>, separator: string, indent: string)
    returns (lines: seq<string>)
    ensures |lines| == per
    ensures forall k :: 0 <= k < per ==> lines[k] == indent + Row(headers, per, sizes, separator, k, |sizes|)
  {
    lines := [];
    for row := 0 to per
      invariant |lines| == row
      invariant forall k :: 0 <= k < row ==> lines[k] == indent + Row(headers, per, sizes, separator, k, |sizes|)
    {
      var line := BuildLine(headers, per, sizes, separator, indent, row);
      lines := lines + [line];
    }
  }

  /** The number of columns tried first; none when that would divide by zero. */
  function Start(headers: seq<Header>, separator: nat, width: int): int {
    var unit := Shortest(headers, width) + separator;
    if unit == 0 then 0 else Ceil(width, unit)
  }

  /** The header lines of `format_sysinfo`. A search that starts below zero is told as such. */
  method FormatHeaders(headers: seq<Header>, separator: string, indent: string, width: int)
    returns (r: Outcome, ghost columns: int)
    ensures var start := Start(headers, |separator|, width - |indent|);
            && (r.ZeroDivision? <==> start == 0)
            && (r.Lines? <==> Ends(headers, start, |separator|, width - |indent|))
    ensures r.Lines? ==> IsLayout(headers, separator, indent, width, columns, r.lines)
  {
    hide Ends, TotalOf, Row, Shortest;
    SearchEnds(headers, |separator|, width - |indent|);
    var inner := width - |indent|;
    var minLength := MinLength(headers, inner);
    columns := 0;
    if minLength + |separator| == 0 {
      return ZeroDivision, 0;
    }
    var start := Ceil(inner, minLength + |separator|);
    if start == 0 {
      return ZeroDivision, 0;
    }
    if start < 0 {
      return Endless, 0;
    }
    var n, per, sizes := FindColumns(headers, start, |separator|, inner);
    forall c | n < c <= start ensures TotalOf(headers, c, |separator|) >= inner {
      assert !Stops(headers, c, |separator|, inner);
    }
    var lines := BuildLines(headers, per, sizes, separator, indent);
    columns := n;
    r := Lines(lines);
  }

  /** The lines are those of the greatest number of columns that fits. */
  ghost predicate IsLayout(headers: seq<Header>, separator: string, indent: string, width: int, columns: int,
                           lines: seq<string>)
  {
    var inner := width - |indent|;
    && 1 <= columns <= Start(headers, |separator|, inner)
    && (columns == 1 || TotalOf(headers, columns, |separator|) < inner)
    && (forall c :: columns < c <= Start(headers, |separator|, inner) ==> TotalOf(headers, c, |separator|) >= inner)
    && |lines| == Ceil(|headers|, columns)
    && (var sizes := Sizes(headers, |lines|, columns);
        forall k :: 0 <= k < |lines| ==> lines[k] == indent + Row(headers, |lines|, sizes, separator, k, columns))
  }

  // ---------------------------------------------------------------------------------
  // When the search ends
  // ---------------------------------------------------------------------------------

  lemma CeilFacts(n: nat, columns: int)
    requires columns >= 1
    ensures 0 <= Ceil(n, columns) <= n
    ensures n <= Ceil(n, columns) * columns < n + columns
  {
    Rounded(n, columns, (0 - n) / columns, (0 - n) % columns);
  }

  lemma Rounded(n: nat, c: int, q: int, m: int)
    requires c >= 1 && 0 <= m < c && 0 - n == q * c + m
    ensures 0 <= -q <= n && n <= (-q) * c < n + c
  {
    Times(q, c);
    if q > 0 {
      Grows(1, q, c);
    }
    if -q > n {
      Grows(n + 1, -q, c);
      Grows(1, c, n);
      Distribute(n, c);
    }
  }

  lemma Distribute(n: int, c: int)
    ensures (n + 1) * c == c * n + c
  {
  }

  lemma Times(q: int, c: int)
    ensures (-q) * c == -(q * c)
  {
  }

  lemma ColumnNone(headers: seq<Header>, per: nat, column: nat)
    ensures Widest(Column(headers, per, column, 0)) == Size(0, 0)
  {
  }

  /** A column with one more row. */
  lemma ColumnGrows(headers: seq<Header>, per: nat, column: nat, row: nat)
    ensures Place(per, column, row) >= 0
    ensures var i, size := Place(per, column, row), Widest(Column(headers, per, column, row));
            Widest(Column(headers, per, column, row + 1))
            == if i < |headers| then Size(Max(size.name, |headers[i].name|), Max(size.value, |headers[i].value|))
               else size
  {
    PlaceGrows(per, column, column, row);
    PlaceGrows(per, column, column, 0);
    PlaceFrom(per, column, row);
    hide Place;
    var i, smaller, bigger := Place(per, column, row), Column(headers, per, column, row),
                              Column(headers, per, column, row + 1);
    if i < |headers| {
      assert bigger == smaller + [headers[i]];
      assert bigger[..|bigger| - 1] == smaller;
    } else {
      assert bigger == smaller;
    }
  }

  lemma PlaceFrom(per: nat, column: nat, row: nat)
    ensures Place(per, column, row) == Place(per, column, 0) + row
  {
  }

  /** The search ends exactly when it starts with at least one column or the width is positive. */
  lemma EndsExactly(headers: seq<Header>, start: int, separator: nat, width: int)
    ensures start == 0 ==> !Ends(headers, start, separator, width)
    ensures start >= 1 ==> Ends(headers, start, separator, width)
    ensures start < 0 ==> (Ends(headers, start, separator, width) <==> width > 0)
  {
    if start >= 1 {
      assert Stops(headers, 1, separator, width);
    }
    if start < 0 && width > 0 {
      assert Stops(headers, start, separator, width);
    }
  }

  /** What becomes of the search, by the width without the indentation: it ends if and only if
      that is positive or more than the separator below zero; it divides by zero at once for the
      other widths close to zero; and for the rest it never ends. */
  lemma SearchEnds(headers: seq<Header>, separator: nat, width: int)
    ensures var start := Start(headers, separator, width);
            && (Ends(headers, start, separator, width) <==> width > 0 || width + separator < 0)
            && (Ends(headers, start, separator, width) <==> start >= 1)
            && (start == 0 <==> width <= 0 && width + separator >= 0
                                && (width == 0 || width + separator == 0 || -width < width + separator))
            && (start < 0 ==> forall c :: c <= start ==> !Stops(headers, c, separator, width))
            && (width > 0 ==> start <= width)
  {
    StartSign(headers, separator, width);
    var start := Start(headers, separator, width);
    hide Start;
    EndsExactly(headers, start, separator, width);
  }

  /** With a separator of three spaces and a width two below the indentation, for any headers. */
  lemma EndlessSearch(headers: seq<Header>)
    ensures Start(headers, 3, -2) == -2
    ensures forall c :: c <= -2 ==> !Stops(headers, c, 3, -2)
  {
    ShortestFacts(headers, -2);
    SearchEnds(headers, 3, -2);
  }

  lemma StartSign(headers: seq<Header>, separator: nat, width: int)
    ensures Start(headers, separator, width) >= 1 <==> width > 0 || width + separator < 0
    ensures Start(headers, separator, width) == 0
       <==> width <= 0 && width + separator >= 0
            && (width == 0 || width + separator == 0 || -width < width + separator)
    ensures width > 0 ==> Start(headers, separator, width) <= width
  {
    hide Ceil;
    ShortestFacts(headers, width);
    var unit := Shortest(headers, width) + separator;
    if unit > 0 {
      CeilSign(width, unit);
    } else if unit < 0 {
      CeilNegative(width, unit);
    }
  }

  lemma {:induction false} ShortestFacts(headers: seq<Header>, width: int)
    ensures Shortest(headers, width) <= width
    ensures width <= 2 ==> Shortest(headers, width) == width
    ensures width >= 1 ==> Shortest(headers, width) >= 1
  {
    if headers != [] {
      ShortestFacts(headers[..|headers| - 1], width);
    }
  }

  lemma CeilSign(a: int, b: int)
    requires b > 0
    ensures Ceil(a, b) >= 1 <==> a > 0
    ensures Ceil(a, b) == 0 <==> -b < a <= 0
    ensures a > 0 ==> Ceil(a, b) <= a
  {
    var q, m := (0 - a) / b, (0 - a) % b;
    Quotient(0 - a, b, q, m);
    if a > 0 {
      CeilFacts(a, b);
    }
  }

  /** The sign of a quotient. */
  lemma Quotient(n: int, b: int, q: int, m: int)
    requires b > 0 && 0 <= m < b && n == q * b + m
    ensures q <= -1 <==> n < 0
    ensures q == 0 <==> 0 <= n < b
  {
    if q >= 1 {
      Grows(1, q, b);
    }
    if q <= -1 {
      Grows(q, -1, b);
    }
  }

  lemma CeilNegative(a: int, b: int)
    requires a <= b < 0
    ensures Ceil(a, b) >= 1
  {
    var positive := 0 - b;
    var q := a / positive;
    assert a == q * positive + a % positive;
    if q >= 0 {
      Grows(0, q, positive);
    }
  }

  // ---------------------------------------------------------------------------------
  // Where the headers are
  // ---------------------------------------------------------------------------------

  /** The offset of a column in every row, without the indentation. */
  function Offset(sizes: seq<Size>, separator: nat, c: nat): nat
    requires c <= |sizes|
  {
    Total(sizes[..c], separator) + (if c > 0 then separator else 0)
  }

  /** No text of the row is wider than its column. */
  ghost predicate Fits(headers: seq<Header>, per: nat, sizes: seq<Size>, row: nat) {
    forall c {:trigger Place(per, c, row)} :: 0 <= c < |sizes| && 0 <= Place(per, c, row) < |headers| ==>
      var header := headers[Place(per, c, row)];
      |header.name| <= sizes[c].name && |header.value| <= sizes[c].value
  }

  lemma PlaceGrows(per: nat, c: nat, d: nat, row: nat)
    requires c <= d
    ensures 0 <= row <= Place(per, c, row) <= Place(per, d, row)
  {
    Grows(0, c, per);
    Grows(c, d, per);
  }

  lemma {:induction false} WidestBounds(headers: seq<Header>, k: nat)
    requires k < |headers|
    ensures |headers[k].name| <= Widest(headers).name && |headers[k].value| <= Widest(headers).value
  {
    if k < |headers| - 1 {
      WidestBounds(headers[..|headers| - 1], k);
    }
  }

  lemma SizesFit(headers: seq<Header>, per: nat, columns: nat, row: nat)
    requires row < per
    ensures Fits(headers, per, Sizes(headers, per, columns), row)
  {
    var sizes := Sizes(headers, per, columns);
    forall c: int | 0 <= c < columns && 0 <= Place(per, c, row) < |headers|
      ensures var header := headers[Place(per, c, row)];
              |header.name| <= sizes[c].name && |header.value| <= sizes[c].value
    {
      hide Widest, Place;
      PlaceGrows(per, c, c, 0);
      PlaceFrom(per, c, row);
      assert Column(headers, per, c, per)[row] == headers[Place(per, c, row)];
      WidestBounds(Column(headers, per, c, per), row);
    }
  }

  lemma TotalNone(sizes: seq<Size>, separator: nat)
    ensures Total(sizes[..0], separator) == 0
  {
  }

  lemma TotalGrows(sizes: seq<Size>, separator: nat, c: nat)
    requires c < |sizes|
    ensures Total(sizes[..c + 1], separator)
         == Offset(sizes, separator, c) + sizes[c].name + sizes[c].value + |VALUE_SEPARATOR|
  {
    assert sizes[..c + 1][..c] == sizes[..c];
  }

  lemma CellWidth(headers: seq<Header>, per: nat, sizes: seq<Size>, row: nat, c: nat)
    requires c < |sizes| && 0 <= Place(per, c, row) < |headers| && Fits(headers, per, sizes, row)
    ensures var header := headers[Place(per, c, row)];
            |Cell(header, sizes[c])| + |Spaces(Pad(sizes[c].value, |header.value|))|
            == sizes[c].name + |VALUE_SEPARATOR| + sizes[c].value
  {
  }

  lemma SegmentLength(headers: seq<Header>, per: nat, sizes: seq<Size>, separator: string, row: nat, c: nat)
    requires c < |sizes| && 0 <= Place(per, c, row) < |headers| && Fits(headers, per, sizes, row)
    ensures var i, lead := Place(per, c, row), if c > 0 then |separator| else 0;
            && |Cell(headers[i], sizes[c])| == sizes[c].name + |VALUE_SEPARATOR| + |headers[i].value|
            && |Segment(headers, per, sizes, separator, row, c)|
               == if Place(per, c + 1, row) < |headers| then lead + sizes[c].name + |VALUE_SEPARATOR| + sizes[c].value
                  else lead + |Cell(headers[i], sizes[c])|
  {
  }

  /** How long a row is up to a column. */
  lemma {:induction false} RowLength(headers: seq<Header>, per: nat, sizes: seq<Size>, separator: string, row: nat,
                                     c: nat)
    requires c <= |sizes| && Fits(headers, per, sizes, row)
    requires 0 <= Place(per, c, row) < |headers| || c == 0
    ensures |Row(headers, per, sizes, separator, row, c)| == Total(sizes[..c], |separator|)
  {
    hide Segment, Cell, Fits, Place, Total;
    if c == 0 {
      TotalNone(sizes, |separator|);
    } else {
      PlaceGrows(per, c - 1, c, row);
      RowLength(headers, per, sizes, separator, row, c - 1);
      SegmentLength(headers, per, sizes, separator, row, c - 1);
      TotalGrows(sizes, |separator|, c - 1);
    }
  }

  /** A row goes on from its first columns, and ends where its headers do. */
  lemma {:induction false} RowExtends(headers: seq<Header>, per: nat, sizes: seq<Size>, separator: string, row: nat,
                                      c: nat, d: nat)
    requires c <= d <= |sizes|
    ensures Row(headers, per, sizes, separator, row, c) <= Row(headers, per, sizes, separator, row, d)
    ensures Place(per, c, row) >= |headers| ==>
              Row(headers, per, sizes, separator, row, c) == Row(headers, per, sizes, separator, row, d)
  {
    hide Place, Cell, Spaces, Pad;
    if c < d {
      PlaceGrows(per, c, d - 1, row);
      RowExtends(headers, per, sizes, separator, row, c, d - 1);
    }
  }

  /** What of a row reaches up to the next column's text. */
  lemma RowThrough(headers: seq<Header>, per: nat, sizes: seq<Size>, separator: string, row: nat, c: nat)
    requires c < |sizes| && 0 <= Place(per, c, row) < |headers| && Place(per, c, row) <= Place(per, c + 1, row)
    ensures var header, text := headers[Place(per, c, row)], Row(headers, per, sizes, separator, row, c);
            var through := text + (if c > 0 then separator else "") + Cell(header, sizes[c]);
            if Place(per, c + 1, row) < |headers| then
              c + 1 < |sizes| ==>
                through + (Spaces(Pad(sizes[c].value, |header.value|)) + separator)
                <= Row(headers, per, sizes, separator, row, c + 2)
            else Row(headers, per, sizes, separator, row, c + 1) == through
  {
    hide Cell, Place, Spaces, Pad;
    var header, text := headers[Place(per, c, row)], Row(headers, per, sizes, separator, row, c);
    var lead, cell, pad := if c > 0 then separator else "", Cell(header, sizes[c]),
                           Spaces(Pad(sizes[c].value, |header.value|));
    if Place(per, c + 1, row) >= |headers| {
      RegroupRow(text, "", lead, cell, "");
      assert Segment(headers, per, sizes, separator, row, c) == lead + cell + "";
      assert text + "" == text;
    } else if c + 1 < |sizes| {
      var rest := Segment(headers, per, sizes, separator, row, c + 1);
      assert Segment(headers, per, sizes, separator, row, c) == lead + cell + pad;
      assert separator <= rest;
      assert Row(headers, per, sizes, separator, row, c + 2) == (text + (lead + cell + pad)) + rest;
      Through(text, lead, cell, pad, separator, rest);
    }
  }

  lemma Through(a: string, b: string, c: string, d: string, e: string, rest: string)
    requires e <= rest
    ensures a + b + c + (d + e) <= (a + (b + c + d)) + rest
  {
    assert (a + (b + c + d)) + rest == a + b + c + (d + e) + rest[|e|..];
  }

  /** Slices of a text with known parts. */
  lemma Slices(text: string, a: string, b: string, c: string, d: string, at: nat)
    requires a + b + c + d <= text && at == |a| + |b|
    ensures text[at..at + |c|] == c && text[at + |c|..at + |c| + |d|] == d
  {
  }

  /** A header's cell is at its column's offset. What follows is the padding and the separator
      up to the next column's offset, or the end of the row. */
  lemma CellAt(headers: seq<Header>, per: nat, sizes: seq<Size>, separator: string, row: nat, c: nat)
    requires c < |sizes| && 0 <= Place(per, c, row) < |headers| && Fits(headers, per, sizes, row)
    requires Place(per, |sizes|, row) >= |headers|
    ensures Placed(headers, per, sizes, separator, row, c, Row(headers, per, sizes, separator, row, |sizes|))
  {
    hide Segment, Cell, Fits, Place, Total, Row, Spaces, Pad;
    var text, header := Row(headers, per, sizes, separator, row, |sizes|), headers[Place(per, c, row)];
    var before, lead := Row(headers, per, sizes, separator, row, c), if c > 0 then separator else "";
    var cell, pad := Cell(header, sizes[c]), Spaces(Pad(sizes[c].value, |header.value|));
    PlaceGrows(per, c, c + 1, row);
    RowLength(headers, per, sizes, separator, row, c);
    RowThrough(headers, per, sizes, separator, row, c);
    if Place(per, c + 1, row) < |headers| {
      assert c + 1 < |sizes|;
      RowExtends(headers, per, sizes, separator, row, c + 2, |sizes|);
      Slices(text, before, lead, cell, pad + separator, Offset(sizes, |separator|, c));
      CellWidth(headers, per, sizes, row, c);
      TotalGrows(sizes, |separator|, c);
    } else {
      RowExtends(headers, per, sizes, separator, row, c + 1, |sizes|);
      Slices(text, before, lead, cell, "", Offset(sizes, |separator|, c));
    }
  }

  /** What `CellAt` says of one cell. */
  ghost predicate Placed(headers: seq<Header>, per: nat, sizes: seq<Size>, separator: string, row: nat, c: nat,
                         text: string)
    requires c < |sizes| && 0 <= Place(per, c, row) < |headers|
  {
    var header := headers[Place(per, c, row)];
    var at := Offset(sizes, |separator|, c);
    var end := at + |Cell(header, sizes[c])|;
    && end <= |text|
    && text[at..end] == Cell(header, sizes[c])
    && if c + 1 < |sizes| && Place(per, c + 1, row) < |headers| then
         var next := Offset(sizes, |separator|, c + 1);
         end <= next <= |text| && text[end..next] == Spaces(Pad(sizes[c].value, |header.value|)) + separator
       else end == |text|
  }

  /** At an offset stands the header's name, then a colon and a space, and the value as far behind
      as the widest name wants it. */
  ghost predicate Shown(header: Header, size: Size, text: string, at: nat) {
    var value := at + size.name + 2;
    && |header.name| <= size.name && value + |header.value| <= |text|
    && text[at..at + |header.name|] == header.name
    && text[at + |header.name|] == ':' && text[at + |header.name| + 1] == ' '
    && (forall i :: at + |header.name| + 2 <= i < value ==> text[i] == ' ')
    && text[value..value + |header.value|] == header.value
  }

  lemma PlacedShown(headers: seq<Header>, per: nat, sizes: seq<Size>, separator: string, row: nat, c: nat,
                    text: string)
    requires c < |sizes| && 0 <= Place(per, c, row) < |headers| && Fits(headers, per, sizes, row)
    requires Placed(headers, per, sizes, separator, row, c, text)
    ensures Shown(headers[Place(per, c, row)], sizes[c], text, Offset(sizes, |separator|, c))
  {
    hide Offset, Total;
    var header, size, at := headers[Place(per, c, row)], sizes[c], Offset(sizes, |separator|, c);
    var cell, n := Cell(header, size), |header.name|;
    assert text[at..at + |cell|] == cell;
    assert cell[..n] == header.name && cell[n] == ':' && cell[n + 1] == ' ';
    assert cell[size.name + 2..] == header.value;
    assert forall i :: 0 <= i < |cell| ==> text[at + i] == cell[i];
    assert text[at..at + n] == cell[..n];
    assert text[at + size.name + 2..at + size.name + 2 + |header.value|] == cell[size.name + 2..];
    forall i | at + n + 2 <= i < at + size.name + 2 ensures text[i] == ' ' {
      assert text[i] == cell[i - at];
    }
  }

  /** The columns' offsets: each column is as wide as its widest name and value with a colon and a
      space between them, and the separator keeps columns apart. */
  lemma OffsetsMeaning(sizes: seq<Size>, separator: nat, c: nat)
    requires c < |sizes|
    ensures Offset(sizes, separator, 0) == 0
    ensures Offset(sizes, separator, c + 1)
         == Offset(sizes, separator, c) + sizes[c].name + 2 + sizes[c].value + separator
    ensures Total(sizes, separator) == Offset(sizes, separator, |sizes|) - separator
  {
    TotalGrows(sizes, separator, c);
    assert sizes[..|sizes|] == sizes && sizes[..0] == [];
  }

  /** The widths are those of the widest name and the widest value. */
  lemma {:induction false} WidestMeaning(headers: seq<Header>)
    ensures forall k :: 0 <= k < |headers| ==>
              |headers[k].name| <= Widest(headers).name && |headers[k].value| <= Widest(headers).value
    ensures headers != [] ==> exists k :: 0 <= k < |headers| && |headers[k].name| == Widest(headers).name
    ensures headers != [] ==> exists k :: 0 <= k < |headers| && |headers[k].value| == Widest(headers).value
    ensures headers == [] ==> Widest(headers) == Size(0, 0)
  {
    if headers != [] {
      var init, last := headers[..|headers| - 1], headers[|headers| - 1];
      WidestMeaning(init);
      var w := Widest(headers);
      forall k | 0 <= k < |headers| ensures |headers[k].name| <= w.name && |headers[k].value| <= w.value {
        assert k < |init| ==> init[k] == headers[k];
      }
      if |last.name| != w.name {
        var k :| 0 <= k < |init| && |init[k].name| == Widest(init).name;
        assert headers[k] == init[k];
      }
      if |last.value| != w.value {
        var k :| 0 <= k < |init| && |init[k].value| == Widest(init).value;
        assert headers[k] == init[k];
      }
    }
  }

  /** The number of columns tried first: as many columns of the shortest header as it takes to fill
      the width. */
  lemma StartMeaning(headers: seq<Header>, separator: nat, width: int)
    requires width > 0
    ensures var shortest, start := Shortest(headers, width), Start(headers, separator, width);
            && 1 <= shortest <= width
            && (forall k :: 0 <= k < |headers| ==> shortest <= |headers[k].name| + |headers[k].value| + 2)
            && (shortest == width
                || exists k :: 0 <= k < |headers| && shortest == |headers[k].name| + |headers[k].value| + 2)
            && (start - 1) * (shortest + separator) < width <= start * (shortest + separator)
  {
    ShortestFacts(headers, width);
    ShortestMeaning(headers, width);
    CeilFacts(width, Shortest(headers, width) + separator);
    var a, b := Start(headers, separator, width), Shortest(headers, width) + separator;
    LessOne(a, b);
  }

  lemma LessOne(a: int, b: int)
    ensures (a - 1) * b == a * b - b
  {
  }

  lemma {:induction false} ShortestMeaning(headers: seq<Header>, width: int)
    ensures var s := Shortest(headers, width);
            && (forall k :: 0 <= k < |headers| ==> s <= |headers[k].name| + |headers[k].value| + 2)
            && (s == width || exists k :: 0 <= k < |headers| && s == |headers[k].name| + |headers[k].value| + 2)
  {
    if headers != [] {
      var init, last := headers[..|headers| - 1], headers[|headers| - 1];
      ShortestMeaning(init, width);
      var s := Shortest(headers, width);
      forall k | 0 <= k < |headers| ensures s <= |headers[k].name| + |headers[k].value| + 2 {
        assert k < |init| ==> init[k] == headers[k];
      }
      if s != width && s != |last.name| + |last.value| + 2 {
        var k :| 0 <= k < |init| && s == |init[k].name| + |init[k].value| + 2;
        assert headers[k] == init[k];
      }
    }
  }

  lemma PlaceOnce(per: nat, c: nat, row: nat)
    requires row < per
    ensures Place(per, c, row) / per == c && Place(per, c, row) % per == row
  {
    var i := Place(per, c, row);
    var q := i / per;
    assert i == q * per + i % per;
    if q < c {
      Grows(q + 1, c, per);
    }
    if q > c {
      Grows(c + 1, q, per);
    }
  }

  /** There is a place for no header past the last column. */
  lemma PlacesEnd(n: nat, columns: int, row: nat)
    requires columns >= 1
    ensures Ceil(n, columns) >= 0 && Place(Ceil(n, columns), columns, row) >= n
    ensures row < Ceil(n, columns) ==> Place(Ceil(n, columns), 0, row) < n
  {
    CeilFacts(n, columns);
    Commutes(Ceil(n, columns), columns);
  }

  lemma Commutes(x: int, y: int)
    ensures x * y == y * x
  {
  }

  /** Every header is in exactly one row and column of the lines: there, its cell starts at the
      column's offset. Every line starts with the indentation and holds at least one header. */
  lemma EveryHeaderOnce(headers: seq<Header>, separator: string, indent: string, width: int, columns: int,
                        lines: seq<string>, row: nat, c: nat)
    requires IsLayout(headers, separator, indent, width, columns, lines)
    requires row < |lines|
    ensures var per, sizes := |lines|, Sizes(headers, |lines|, columns);
            && row < |headers|
            && indent <= lines[row]
            && (c < columns && Place(per, c, row) < |headers| ==>
                  && 0 <= Place(per, c, row)
                  && Placed(headers, per, sizes, separator, row, c, lines[row][|indent|..])
                  && Shown(headers[Place(per, c, row)], sizes[c], lines[row][|indent|..],
                           Offset(sizes, |separator|, c)))
  {
    hide Stops, Start, Ceil, Place, Placed, Sizes, Row;
    var per, sizes := |lines|, Sizes(headers, |lines|, columns);
    PlacesEnd(|headers|, columns, row);
    PlaceIsRow(per, row);
    SizesLength(headers, per, columns);
    if c < columns && Place(per, c, row) < |headers| {
      PlaceGrows(per, c, c, row);
      SizesFit(headers, per, columns, row);
      CellAt(headers, per, sizes, separator, row, c);
      assert lines[row][|indent|..] == Row(headers, per, sizes, separator, row, columns);
      PlacedShown(headers, per, sizes, separator, row, c, lines[row][|indent|..]);
    }
  }

  lemma PlaceIsRow(per: nat, row: nat)
    ensures Place(per, 0, row) == row
  {
  }

  lemma SizesLength(headers: seq<Header>, per: nat, columns: nat)
    ensures |Sizes(headers, per, columns)| == columns
  {
  }

  /** Each header has a row and a column, and no other. */
  lemma PlaceOfHeader(headers: seq<Header>, columns: int, i: nat)
    requires i < |headers| && columns >= 1
    ensures var per := Ceil(|headers|, columns);
            && per > 0 && i % per < per && 0 <= i / per < columns
            && Place(per, i / per, i % per) == i
            && forall c: nat, row: nat :: row < per && Place(per, c, row) == i ==> c == i / per && row == i % per
  {
    var per := Ceil(|headers|, columns);
    CeilFacts(|headers|, columns);
    Commutes(per, columns);
    PlaceOfIndex(per, columns, i);
    forall c: nat, row: nat | row < per && Place(per, c, row) == i
      ensures c == i / per && row == i % per
    {
      PlaceOnce(per, c, row);
    }
  }

  lemma PlaceOfIndex(per: nat, columns: int, i: nat)
    requires i < columns * per && per > 0
    ensures 0 <= i / per < columns && Place(per, i / per, i % per) == i
  {
    if i / per >= columns {
      Grows(columns, i / per, per);
    }
  }

  /** With more than one column every line is shorter than the width. */
  lemma LinesFit(headers: seq<Header>, separator: string, indent: string, width: int, columns: int,
                 lines: seq<string>, row: nat)
    requires IsLayout(headers, separator, indent, width, columns, lines)
    requires row < |lines| && columns > 1
    ensures |lines[row]| < width
  {
    hide Start, Ceil, Place, Row, Total, Sizes, Fits;
    var per, sizes := |lines|, Sizes(headers, |lines|, columns);
    SizesLength(headers, per, columns);
    SizesFit(headers, per, columns, row);
    RowAtMost(headers, per, sizes, separator, row, columns);
    assert sizes[..columns] == sizes;
  }

  lemma {:induction false} RowAtMost(headers: seq<Header>, per: nat, sizes: seq<Size>, separator: string, row: nat,
                                     c: nat)
    requires c <= |sizes| && Fits(headers, per, sizes, row)
    ensures |Row(headers, per, sizes, separator, row, c)| <= Total(sizes[..c], |separator|)
  {
    hide Segment, Cell, Fits, Place, Total;
    if c == 0 {
      TotalNone(sizes, |separator|);
    } else {
      RowAtMost(headers, per, sizes, separator, row, c - 1);
      PlaceGrows(per, c - 1, c - 1, row);
      TotalGrows(sizes, |separator|, c - 1);
      if Place(per, c - 1, row) < |headers| {
        SegmentAtMost(headers, per, sizes, separator, row, c - 1);
      } else {
        SegmentNone(headers, per, sizes, separator, row, c - 1);
      }
    }
  }

  lemma SegmentNone(headers: seq<Header>, per: nat, sizes: seq<Size>, separator: string, row: nat, c: nat)
    requires c < |sizes| && Place(per, c, row) >= |headers|
    ensures Segment(headers, per, sizes, separator, row, c) == ""
  {
  }

  lemma SegmentAtMost(headers: seq<Header>, per: nat, sizes: seq<Size>, separator: string, row: nat, c: nat)
    requires c < |sizes| && 0 <= Place(per, c, row) < |headers| && Fits(headers, per, sizes, row)
    ensures |Segment(headers, per, sizes, separator, row, c)|
         <= (if c > 0 then |separator| else 0) + sizes[c].name + |VALUE_SEPARATOR| + sizes[c].value
  {
    CellWidth(headers, per, sizes, row, c);
  }
}
