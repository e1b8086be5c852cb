/** How the terminal interface narrows the columns of a table to the width it has. */
module TableWidth {

  const GAP: int := 2

  function Max(a: int, b: int): int {
    if a < b then b else a
  }

  function Min(a: int, b: int): int {
    if a < b then a else b
  }

  function Sum(widths: seq<int>): int {
    if |widths| == 0 then 0 else Sum(widths[..|widths| - 1]) + widths[|widths| - 1]
  }

  /** tableWidth: the columns and the gaps between them. */
  function Width(widths: seq<int>): int {
    Max(0, |widths| - 1) * GAP + Sum(widths)
  }

  lemma {:induction false} SumOfUpdate(widths: seq<int>, i: nat, w: int)
    requires i < |widths|
    ensures Sum(widths[i := w]) == Sum(widths) - widths[i] + w
  {
    var n := |widths| - 1;
    if i < n {
      SumOfUpdate(widths[..n], i, w);
      assert widths[i := w][..n] == widths[..n][i := w];
    } else {
      assert widths[i := w][..n] == widths[..n];
    }
  }

  lemma {:induction false} SumIsMonotone(a: seq<int>, b: seq<int>)
    requires |a| == |b| && forall i :: 0 <= i < |a| ==> a[i] <= b[i]
    ensures Sum(a) <= Sum(b)
    ensures Sum(a) == Sum(b) ==> a == b
  {
    if |a| > 0 {
      SumIsMonotone(a[..|a| - 1], b[..|b| - 1]);
      assert a == a[..|a| - 1] + [a[|a| - 1]] && b == b[..|b| - 1] + [b[|b| - 1]];
    }
  }

  // ------------------------------------------------------------ natural and least widths

  /** The widest of a header and the cells below it, and never less than one. */
  function Natural(header: nat, rows: seq<seq<nat>>, column: nat): (w: int)
    ensures w >= Max(1, header)
  {
    if |rows| == 0 then Max(1, header)
    else
      var row := rows[|rows| - 1];
      var above := Natural(header, rows[..|rows| - 1], column);
      if column < |row| then Max(above, row[column]) else above
  }

  ghost predicate InColumn(rows: seq<seq<nat>>, column: nat, w: int) {
    exists r :: 0 <= r < |rows| && column < |rows[r]| && rows[r][column] == w
  }

  /** The natural width holds the header and every cell of the column, and no more than one of them needs. */
  lemma {:induction false} NaturalIsWidest(header: nat, rows: seq<seq<nat>>, column: nat)
    ensures var w := Natural(header, rows, column);
            && w >= 1 && w >= header && (forall r :: 0 <= r < |rows| && column < |rows[r]| ==> rows[r][column] <= w)
            && (w == 1 || w == header || InColumn(rows, column, w))
  {
    if |rows| > 0 {
      var front, row := rows[..|rows| - 1], rows[|rows| - 1];
      NaturalIsWidest(header, front, column);
      assert forall r :: 0 <= r < |front| ==> front[r] == rows[r];
      assert column < |row| ==> InColumn(rows, column, row[column]);
      assert forall w: int :: InColumn(front, column, w) ==> InColumn(rows, column, w);
    }
  }

  /** A column may shrink to its header, but for a long header to six cells and for none to one. */
  lemma LeastIsTheHeaderWithinSix(header: nat)
    ensures 1 <= Least(header) <= 6
    ensures 1 <= header <= 6 ==> Least(header) == header
    ensures header > 6 ==> Least(header) == 6
  {
  }

  /** A table is as wide as its columns and the two cells between each and the next. */
  lemma WidthAddsUp(widths: seq<int>, w: int)
    ensures Width([]) == 0 && Width([w]) == w
    ensures |widths| > 0 ==> Width(widths + [w]) == Width(widths) + 2 + w
  {
    assert (widths + [w])[..|widths|] == widths;
    assert [w][..0] == [];
  }

  /** An empty header has width 0, which makes its least width 1 already. */
  function Least(header: nat): int {
    Min(Max(1, header), 6)
  }

  method Measure(headers: seq<nat>, rows: seq<seq<nat>>) returns (columns: array<int>, minimum: array<int>)
    ensures fresh(columns) && fresh(minimum) && columns != minimum && columns.Length == minimum.Length == |headers|
    ensures forall i :: 0 <= i < |headers| ==> columns[i] == Natural(headers[i], rows, i)
    ensures forall i :: 0 <= i < |headers| ==> minimum[i] == Least(headers[i])
  {
    columns, minimum := new int[|headers|], new int[|headers|];
    for i := 0 to |headers|
      invariant forall k :: 0 <= k < i ==> columns[k] == Natural(headers[k], [], k) && minimum[k] == Least(headers[k])
    {
      columns[i] := Max(1, headers[i]);
      minimum[i] := Min(columns[i], 6);
    }
    assert rows[..0] == [];
    for r := 0 to |rows|
      invariant forall k :: 0 <= k < |headers| ==> columns[k] == Natural(headers[k], rows[..r], k)
      invariant forall k :: 0 <= k < |headers| ==> minimum[k] == Least(headers[k])
    {
      assert rows[..r + 1][..r] == rows[..r];
      for i := 0 to |headers|
        invariant forall k :: 0 <= k < i ==> columns[k] == Natural(headers[k], rows[..r + 1], k)
        invariant forall k :: i <= k < |headers| ==> columns[k] == Natural(headers[k], rows[..r], k)
        invariant forall k :: 0 <= k < |headers| ==> minimum[k] == Least(headers[k])
      {
        if i < |rows[r]| {
          columns[i] := Max(columns[i], rows[r][i]);
        }
      }
    }
    assert rows[..|rows|] == rows;
  }

  // ------------------------------------------------------------ shrinking

  ghost predicate Between(least: seq<int>, columns: seq<int>, natural: seq<int>) {
    && |least| == |columns| == |natural|
    && forall i :: 0 <= i < |columns| ==> least[i] <= columns[i] <= natural[i]
  }

  /** A column that lost a cell has at most one cell of slack less than any other, and no less than any before it. */
  ghost predicate Fair(least: seq<int>, columns: seq<int>, natural: seq<int>)
    requires |least| == |columns| == |natural|
  {
    forall i, j :: 0 <= i < |columns| && 0 <= j < |columns| && columns[j] < natural[j] ==>
      columns[i] - least[i] <= columns[j] - least[j] + if i < j then 0 else 1
  }

  /** The width the table ends with: the one it has room for, if it is possible and needed to get there. */
  function FinalWidth(least: seq<int>, natural: seq<int>, width: int): int {
    if Width(natural) <= width then Width(natural) else Max(width, Width(least))
  }

  /** The first column of the largest positive slack, or -1. */
  method Candidate(columns: array<int>, minimum: array<int>) returns (candidate: int)
    requires columns.Length == minimum.Length
    ensures -1 <= candidate < columns.Length
    ensures candidate == -1 ==> forall i :: 0 <= i < columns.Length ==> columns[i] <= minimum[i]
    ensures candidate >= 0 ==>
              && columns[candidate] > minimum[candidate]
              && (forall i :: 0 <= i < columns.Length ==> columns[i] - minimum[i] <= columns[candidate] - minimum[candidate])
              && (forall i :: 0 <= i < candidate ==> columns[i] - minimum[i] < columns[candidate] - minimum[candidate])
  {
    candidate := -1;
    var slackest := 0;
    for index := 0 to columns.Length
      invariant -1 <= candidate < index
      invariant candidate == -1 ==> slackest == 0
      invariant candidate >= 0 ==> slackest == columns[candidate] - minimum[candidate] > 0
      invariant forall i :: 0 <= i < index ==> columns[i] - minimum[i] <= slackest
      invariant forall i :: 0 <= i < candidate ==> columns[i] - minimum[i] < slackest
    {
      var slack := columns[index] - minimum[index];
      if slack > slackest {
        candidate := index;
        slackest := slack;
      }
    }
  }

  lemma TakingKeepsFair(least: seq<int>, columns: seq<int>, natural: seq<int>, c: nat)
    requires Between(least, columns, natural) && Fair(least, columns, natural)
    requires c < |columns| && columns[c] > least[c]
    requires forall i :: 0 <= i < |columns| ==> columns[i] - least[i] <= columns[c] - least[c]
    requires forall i :: 0 <= i < c ==> columns[i] - least[i] < columns[c] - least[c]
    ensures Between(least, columns[c := columns[c] - 1], natural)
    ensures Fair(least, columns[c := columns[c] - 1], natural)
    ensures Width(columns[c := columns[c] - 1]) == Width(columns) - 1
  {
    SumOfUpdate(columns, c, columns[c] - 1);
  }

  lemma StartIsFair(least: seq<int>, natural: seq<int>)
    requires |least| == |natural|
    ensures Fair(least, natural, natural)
  {
  }

  method Shrink(columns: array<int>, minimum: array<int>, width: int)
    requires columns != minimum && columns.Length == minimum.Length
    requires forall i :: 0 <= i < columns.Length ==> minimum[i] <= columns[i]
    modifies columns
    ensures Between(minimum[..], columns[..], old(columns[..]))
    ensures Fair(minimum[..], columns[..], old(columns[..]))
    ensures Width(columns[..]) == FinalWidth(minimum[..], old(columns[..]), width)
  {
    hide Fair, Sum;
    ghost var natural, least := columns[..], minimum[..];
    StartIsFair(least, natural);
    SumIsMonotone(least, natural);
    while Width(columns[..]) > width
      invariant minimum[..] == least && Between(least, columns[..], natural) && Fair(least, columns[..], natural)
      invariant columns[..] == natural || Width(columns[..]) >= width
      invariant Width(columns[..]) <= Width(natural) && Width(least) <= Width(columns[..])
      decreases Width(columns[..]) - width
    {
      var candidate := Candidate(columns, minimum);
      if candidate < 0 {
        assert columns[..] == least;
        break;
      }
      ghost var before := columns[..];
      TakingKeepsFair(least, before, natural, candidate);
      columns[candidate] := columns[candidate] - 1;
      assert columns[..] == before[candidate := before[candidate] - 1];
      SumIsMonotone(least, columns[..]);
    }
  }

  /** Bounds, fairness and the final width leave no choice: the loop computes the one such table. */
  lemma FairIsUnique(least: seq<int>, natural: seq<int>, a: seq<int>, b: seq<int>)
    requires Between(least, a, natural) && Fair(least, a, natural)
    requires Between(least, b, natural) && Fair(least, b, natural)
    requires Width(a) == Width(b)
    ensures a == b
  {
    if a != b {
      var i := SomeNarrower(a, b);
      var j := SomeNarrower(b, a);
      assert false;
    }
  }

  lemma SomeNarrower(a: seq<int>, b: seq<int>) returns (i: nat)
    requires |a| == |b| && Sum(a) == Sum(b) && a != b
    ensures i < |a| && a[i] < b[i]
  {
    if forall k :: 0 <= k < |a| ==> b[k] <= a[k] {
      SumIsMonotone(b, a);
      assert false;
    }
    i :| 0 <= i < |a| && a[i] < b[i];
  }

  /** The widths of a rendered table; no headers, no table. */
  method ColumnWidths(headers: seq<nat>, rows: seq<seq<nat>>, width: int) returns (columns: seq<int>, room: int)
    ensures |columns| == |headers| && room == Max(width, |headers| * 3)
    ensures forall i :: 0 <= i < |headers| ==> Least(headers[i]) <= columns[i] <= Natural(headers[i], rows, i)
    ensures Width(columns) <= room || forall i :: 0 <= i < |headers| ==> columns[i] == Least(headers[i])
    ensures forall i, j :: 0 <= i < |headers| && 0 <= j < |headers| && columns[j] < Natural(headers[j], rows, j) ==>
              columns[i] - Least(headers[i]) <= columns[j] - Least(headers[j]) + 1
  {
    room := Max(width, |headers| * 3);
    if |headers| == 0 {
      return [], room;
    }
    var widths, minimum := Measure(headers, rows);
    ghost var natural, least := widths[..], minimum[..];
    assert forall i :: 0 <= i < |headers| ==> natural[i] == Natural(headers[i], rows, i) && least[i] == Least(headers[i]);
    Shrink(widths, minimum, room);
    columns := widths[..];
    if Width(columns) > room {
      SumIsMonotone(least, columns);
      assert columns == least;
    }
  }
}
