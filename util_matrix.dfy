// util.Matrix: a two-dimensional grid stored column after column in one
// flat list, indexed by (column, row) tuples.

module UtilMatrix {
  import opened Base

  /** The outcome of a list access: a value, or Python's IndexError. */
  datatype Lookup<T> = Found(value: T) | IndexError

  /** Python list indexing: a negative index counts from the end. */
  function PyIndex(len: nat, i: int): (r: Option<nat>)
    ensures r.Some? <==> -(len as int) <= i < len
    ensures r.Some? ==> r.value < len && (if i >= 0 then r.value == i else r.value == len + i)
  {
    if 0 <= i < len then Some(i) else if -(len as int) <= i < 0 then Some(len + i) else None
  }

  /** The flat position of cell (column, row). */
  function FlatIndex(rows: int, column: int, row: int): int
  {
    column * rows + row
  }

  /** Inside the grid, distinct cells have distinct flat positions, all in range. */
  lemma FlatIndexInjective(columns: int, rows: int, c1: int, r1: int, c2: int, r2: int)
    requires 0 <= c1 < columns && 0 <= c2 < columns && 0 <= r1 < rows && 0 <= r2 < rows
    ensures 0 <= FlatIndex(rows, c1, r1) < columns * rows
    ensures FlatIndex(rows, c1, r1) == FlatIndex(rows, c2, r2) <==> c1 == c2 && r1 == r2
  {
    CellBelowNextColumn(rows, c1, r1, columns);
    if c1 < c2 {
      CellBelowNextColumn(rows, c1, r1, c2);
    } else if c2 < c1 {
      CellBelowNextColumn(rows, c2, r2, c1);
    }
  }

  /** A cell of column `c` lies before the first cell of any later column `d`. */
  lemma CellBelowNextColumn(rows: int, c: int, r: int, d: int)
    requires 0 <= c < d && 0 <= r < rows
    ensures c * rows + r < d * rows
  {
    assert (c + 1) * rows == c * rows + rows;
    MulMonotone(c + 1, d, rows);
  }

  lemma MulMonotone(a: int, b: int, k: int)
    requires a <= b && 0 <= k
    ensures a * k <= b * k
  {
    assert b * k == a * k + (b - a) * k;
  }

  /** The first position of `v` in `s`, or |s| when it is absent (list.index). */
  function FirstIndexOf<T(==)>(s: seq<T>, v: T): (i: nat)
    ensures i <= |s| && (i < |s| ==> s[i] == v)
    ensures forall j :: 0 <= j < i ==> s[j] != v
    ensures i == |s| <==> v !in s
  {
    if s == [] then 0 else if s[0] == v then 0 else 1 + FirstIndexOf(s[1..], v)
  }

  /** Clearing the first occurrence of a value leaves one fewer of it. */
  lemma RemoveCount<T>(s: seq<Option<T>>, v: Option<T>)
    requires v in s && v.Some?
    ensures multiset(s[FirstIndexOf(s, v) := None])[v] == multiset(s)[v] - 1
    ensures multiset(s[FirstIndexOf(s, v) := None])[None] == multiset(s)[None] + 1
  {
  }

  /** Reading a whole row or column: the values, or the first IndexError. */
  function Collect<T>(cells: seq<Lookup<T>>): (r: Lookup<seq<T>>)
    ensures r.Found? <==> forall i :: 0 <= i < |cells| ==> cells[i].Found?
    ensures r.Found? ==> |r.value| == |cells|
    ensures r.Found? ==> forall i :: 0 <= i < |cells| ==> cells[i] == Found(r.value[i])
  {
    if cells == [] then Found([])
    else if cells[0].IndexError? then IndexError
    else match Collect(cells[1..])
      case IndexError => IndexError
      case Found(rest) => Found([cells[0].value] + rest)
  }

  class Matrix<T(==)> {
    const columns: int
    const rows: int
    var data: seq<Option<T>>

    /** Matrix(columns, rows, initial_value): columns * rows cells holding the initial value. */
    constructor(columns: int, rows: int, initial: Option<T>)
      ensures this.columns == columns && this.rows == rows
      ensures |data| == if columns * rows > 0 then columns * rows else 0
      ensures forall i :: 0 <= i < |data| ==> data[i] == initial
    {
      this.columns := columns;
      this.rows := rows;
      var n := if columns * rows > 0 then columns * rows else 0;
      data := seq(n, _ => initial);
    }

    /** m[column, row]: the cell at the flat index, with Python's negative wrap-around. */
    function Get(column: int, row: int): (r: Lookup<Option<T>>)
      reads this
      ensures r.Found? <==> -|data| <= FlatIndex(rows, column, row) < |data|
      ensures 0 <= FlatIndex(rows, column, row) < |data| ==>
        r == Found(data[FlatIndex(rows, column, row)])
    {
      var p := PyIndex(|data|, FlatIndex(rows, column, row));
      if p.Some? then Found(data[p.value]) else IndexError
    }

    /** m[column, row] = value, or IndexError with nothing changed. */
    method Set(column: int, row: int, value: Option<T>) returns (ok: bool)
      modifies this
      ensures ok <==> -|old(data)| <= FlatIndex(rows, column, row) < |old(data)|
      ensures ok ==> data == old(data)[PyIndex(|old(data)|, FlatIndex(rows, column, row)).value := value]
      ensures !ok ==> data == old(data)
      ensures ok ==> Get(column, row) == Found(value)
      ensures forall c, r :: PyIndex(|data|, FlatIndex(rows, c, r)) != PyIndex(|data|, FlatIndex(rows, column, row)) ==>
        Get(c, r) == old(Get(c, r))
    {
      var p := PyIndex(|data|, FlatIndex(rows, column, row));
      if p.None? {
        return false;
      }
      data := data[p.value := value];
      ok := true;
    }

    /** remove: clears the first cell equal to the value; ValueError (false) when there is none. */
    method Remove(value: Option<T>) returns (found: bool)
      modifies this
      ensures found <==> value in old(data)
      ensures found ==> data == old(data)[FirstIndexOf(old(data), value) := None]
      ensures !found ==> data == old(data)
    {
      var i := 0;
      while i < |data| && data[i] != value
        invariant 0 <= i <= |data|
        invariant forall j :: 0 <= j < i ==> data[j] != value
      {
        i := i + 1;
      }
      if i == |data| {
        return false;
      }
      assert FirstIndexOf(data, value) == i;
      data := data[i := None];
      found := true;
    }

    /** row(row): the cells (i, row) for i in range(columns). */
    function Row(row: int): Lookup<seq<Option<T>>>
      reads this
    {
      Collect(seq(if columns > 0 then columns else 0, i reads this => Get(i, row)))
    }

    /** column(column): the cells (column, i) for i in range(rows). */
    function Column(column: int): Lookup<seq<Option<T>>>
      reads this
    {
      Collect(seq(if rows > 0 then rows else 0, i reads this => Get(column, i)))
    }

    /** Inside the grid, a cell is read straight from its flat position. */
    lemma GetInside(c: int, r: int)
      requires 0 <= c < columns && 0 <= r < rows && |data| == columns * rows
      ensures 0 <= c * rows + r < |data| && Get(c, r) == Found(data[c * rows + r])
    {
      FlatIndexInjective(columns, rows, c, r, c, r);
    }

    /** A column of the grid is one contiguous slice of the flat list. */
    lemma ColumnIsSlice(column: int)
      requires 0 <= column < columns && 0 <= rows && |data| == columns * rows
      ensures column * rows + rows <= |data|
      ensures Column(column) == Found(data[column * rows..column * rows + rows])
    {
      assert column * rows + rows == (column + 1) * rows <= columns * rows;
      var cells := seq(rows, i reads this => Get(column, i));
      var s := data[column * rows..column * rows + rows];
      forall i | 0 <= i < rows
        ensures cells[i] == Found(s[i])
      {
        GetInside(column, i);
      }
      assert Collect(cells).Found?;
      assert Collect(cells).value == s;
    }

    /** A row of the grid takes one cell from each column, `rows` apart. */
    lemma RowIsStrided(row: int)
      requires 0 <= row < rows && 0 <= columns && |data| == columns * rows
      ensures Row(row).Found? && |Row(row).value| == columns
      ensures forall i :: 0 <= i < columns ==>
        (0 <= i * rows + row < |data| && Row(row).value[i] == data[i * rows + row])
    {
      var cells := seq(columns, i reads this => Get(i, row));
      forall i | 0 <= i < columns
        ensures 0 <= i * rows + row < |data| && cells[i] == Found(data[i * rows + row])
      {
        GetInside(i, row);
      }
      assert Collect(cells).Found?;
    }

    /** No bounds check is made per coordinate: (c, r + rows) is the same cell as (c + 1, r). */
    lemma GetWrapsAcrossColumns(c: int, r: int)
      ensures Get(c, r + rows) == Get(c + 1, r)
    {
      assert FlatIndex(rows, c, r + rows) == FlatIndex(rows, c + 1, r);
    }
  }
}
