/**
 * `load_map` of map_visualization.c: the map file is read one character at
 * a time, only `'0'` and `'1'` count, and the first 400 of them fill the
 * 20×20 grid row by row. Fewer than 400 is an error exit with the count.
 * The writer side is `json.dump` of the grid in map_gen.py.
 */
module MapLoader {
  import opened Wrappers

  /** `GRID_SIZE`: the side of the square grid. */
  const GridSize: nat := 20

  /** `GRID_SIZE * GRID_SIZE`: the number of cells the loader needs. */
  const CellCount: nat := 400

  type Grid = seq<seq<int>>

  /** A character that counts as a cell: `'0'` (free) or `'1'` (blocked). */
  predicate IsCell(c: char)
  {
    c == '0' || c == '1'
  }

  /** The cell values of the counted characters of `text`, in file order. */
  function Cells(text: string): (cs: seq<int>)
    ensures |cs| <= |text|
    ensures ZeroOne(cs)
  {
    if text == [] then []
    else
      var c := text[|text| - 1];
      Cells(text[..|text| - 1]) + (if IsCell(c) then [c as int - '0' as int] else [])
  }

  /** Counting the cells of two texts one after the other. */
  lemma {:induction false} CellsAppend(a: string, b: string)
    ensures Cells(a + b) == Cells(a) + Cells(b)
  {
    if b == [] {
      assert a + b == a;
    } else {
      CellsAppend(a, b[..|b| - 1]);
      assert (a + b)[..|a + b| - 1] == a + b[..|b| - 1];
      assert (a + b)[|a + b| - 1] == b[|b| - 1];
    }
  }

  /** The cells of a prefix of the text are a prefix of its cells. */
  lemma {:induction false} CellsPrefix(text: string, i: nat)
    requires i <= |text|
    ensures |Cells(text[..i])| <= |Cells(text)|
    ensures Cells(text[..i]) == Cells(text)[..|Cells(text[..i])|]
  {
    if i < |text| {
      CellsPrefix(text[..|text| - 1], i);
      assert text[..|text| - 1][..i] == text[..i];
    } else {
      assert text[..i] == text;
    }
  }

  /** Reading one more character adds its cell, if it is one. */
  lemma CellsStep(text: string, i: nat)
    requires i < |text|
    ensures Cells(text[..i + 1]) == Cells(text[..i]) + (if IsCell(text[i]) then [text[i] as int - '0' as int] else [])
  {
    assert text[..i + 1][..i] == text[..i];
  }

  /** A text without `'0'` or `'1'` contributes no cell. */
  lemma {:induction false} CellsNone(text: string)
    requires forall k | 0 <= k < |text| :: !IsCell(text[k])
    ensures Cells(text) == []
  {
    if text != [] {
      CellsNone(text[..|text| - 1]);
    }
  }

  /** Counting the cells of three texts one after the other. */
  lemma CellsAppend3(pre: string, mid: string, post: string)
    ensures Cells(pre + mid + post) == Cells(pre) + Cells(mid) + Cells(post)
  {
    CellsAppend(pre, mid);
    CellsAppend(pre + mid, post);
  }

  /** Cell-free text around `mid` contributes nothing. */
  lemma CellsAround(pre: string, mid: string, post: string)
    requires Cells(pre) == [] && Cells(post) == []
    ensures Cells(pre + mid + post) == Cells(mid)
  {
    CellsAppend3(pre, mid, post);
  }

  /** Two grid dimensions of `GRID_SIZE`. */
  predicate IsGrid(g: Grid)
  {
    |g| == GridSize && forall r | 0 <= r < |g| :: |g[r]| == GridSize
  }

  /** The cell of row-major position `k`: `grid[k / GRID_SIZE][k % GRID_SIZE]`. */
  function At(g: Grid, k: nat): int
    requires IsGrid(g) && k < CellCount
  {
    g[k / GridSize][k % GridSize]
  }

  /** Row `r`, column `c` is row-major position `r * GRID_SIZE + c`. */
  lemma RowMajor(r: nat, c: nat)
    requires r < GridSize && c < GridSize
    ensures (r * GridSize + c) / GridSize == r && (r * GridSize + c) % GridSize == c
    ensures r * GridSize + c < CellCount
  {
  }

  /** Two grids that agree at every row-major position are the same grid. */
  lemma GridsEqual(a: Grid, b: Grid)
    requires IsGrid(a) && IsGrid(b)
    requires forall k | 0 <= k < CellCount :: At(a, k) == At(b, k)
    ensures a == b
  {
    forall r | 0 <= r < GridSize ensures a[r] == b[r] {
      forall c | 0 <= c < GridSize ensures a[r][c] == b[r][c] {
        RowMajor(r, c);
        assert At(a, r * GridSize + c) == At(b, r * GridSize + c);
      }
    }
  }

  /**
   * What `load_map` leaves: the grid of the first 400 counted characters,
   * row-major, or `Err(count)` for the "map data incomplete" exit.
   */
  function DecodeMap(text: string): (r: Result<Grid, nat>)
    ensures r.Err? <==> |Cells(text)| < CellCount
    ensures r.Err? ==> r.error == |Cells(text)|
    ensures r.Ok? ==> IsGrid(r.value)
    ensures r.Ok? ==> forall k | 0 <= k < CellCount :: At(r.value, k) == Cells(text)[k]
  {
    var cs := Cells(text);
    if |cs| < CellCount then Err(|cs|)
    else
      var g := seq(GridSize, r requires 0 <= r < GridSize =>
        seq(GridSize, c requires 0 <= c < GridSize => cs[r * GridSize + c]));
      assert forall k | 0 <= k < CellCount :: k == (k / GridSize) * GridSize + k % GridSize;
      Ok(g)
  }

  /** Characters after the 400th cell change nothing. */
  lemma TrailingIgnored(text: string, rest: string)
    requires |Cells(text)| >= CellCount
    ensures DecodeMap(text + rest) == DecodeMap(text)
  {
    CellsAppend(text, rest);
    var a, b := DecodeMap(text + rest), DecodeMap(text);
    assert forall k | 0 <= k < CellCount :: Cells(text + rest)[k] == Cells(text)[k];
    GridsEqual(a.value, b.value);
  }

  /** The 20×20 array of `load_map`, all zero as a static array starts. */
  function ZeroGrid(): (g: Grid)
    ensures IsGrid(g)
  {
    seq(GridSize, _ => seq(GridSize, _ => 0))
  }

  /** `grid[k / GRID_SIZE][k % GRID_SIZE] = v`. */
  function SetAt(g: Grid, k: nat, v: int): (h: Grid)
    requires IsGrid(g) && k < CellCount
    ensures IsGrid(h) && At(h, k) == v
    ensures forall j | 0 <= j < CellCount && j != k :: At(h, j) == At(g, j)
  {
    var r, c := k / GridSize, k % GridSize;
    assert forall j | 0 <= j < CellCount && j != k :: j / GridSize != r || j % GridSize != c by {
      forall j | 0 <= j < CellCount && j != k ensures j / GridSize != r || j % GridSize != c {
        assert j == (j / GridSize) * GridSize + j % GridSize;
        assert k == r * GridSize + c;
      }
    }
    g[r := g[r][c := v]]
  }

  /** The first `|cs|` row-major cells of `grid` are `cs`. */
  predicate Stored(grid: Grid, cs: seq<int>)
  {
    IsGrid(grid) && |cs| <= CellCount && forall k | 0 <= k < |cs| :: At(grid, k) == cs[k]
  }

  /** `grid[count / GRID_SIZE][count % GRID_SIZE] = value; count++`. */
  lemma StoreNext(grid: Grid, cs: seq<int>, v: int)
    requires Stored(grid, cs) && |cs| < CellCount
    ensures Stored(SetAt(grid, |cs|, v), cs + [v])
  {
    var h := SetAt(grid, |cs|, v);
    forall k | 0 <= k < |cs| + 1 ensures At(h, k) == (cs + [v])[k] {
      if k < |cs| {
        assert At(h, k) == At(grid, k);
      }
    }
  }

  /**
   * The `fgetc` loop of `load_map`: stops at end of text or once 400 cells
   * are stored; `Err(count)` when the text ran out first.
   */
  method LoadMap(text: string) returns (r: Result<Grid, nat>)
    ensures r == DecodeMap(text)
  {
    var grid := ZeroGrid();
    var count := 0;
    var i := 0;
    while i < |text| && count < CellCount
      invariant 0 <= i <= |text|
      invariant count == |Cells(text[..i])|
      invariant Stored(grid, Cells(text[..i]))
    {
      var ch := text[i];
      CellsStep(text, i);
      if IsCell(ch) {
        StoreNext(grid, Cells(text[..i]), ch as int - '0' as int);
        grid := SetAt(grid, count, ch as int - '0' as int);
        count := count + 1;
      }
      i := i + 1;
    }
    CellsPrefix(text, i);
    if count < CellCount {
      assert text[..i] == text;
      r := Err(count);
    } else {
      var d := DecodeMap(text).value;
      assert forall k | 0 <= k < CellCount :: Cells(text[..i])[k] == Cells(text)[k];
      GridsEqual(grid, d);
      r := Ok(grid);
    }
  }

  // ----- the writer: json.dump of the grid -----

  /** `json.dump` of one cell value. */
  function CellText(v: int): string
    requires v == 0 || v == 1
  {
    if v == 0 then "0" else "1"
  }

  predicate ZeroOne(row: seq<int>)
  {
    forall c | 0 <= c < |row| :: row[c] == 0 || row[c] == 1
  }

  /** The items of a JSON list of cells, separated by `", "`. */
  function JsonItems(row: seq<int>): string
    requires ZeroOne(row)
  {
    if row == [] then []
    else if |row| == 1 then CellText(row[0])
    else CellText(row[0]) + ", " + JsonItems(row[1..])
  }

  /** The items of the outer JSON list: each row as `[...]`, separated by `", "`. */
  function JsonRows(g: Grid): string
    requires forall r | 0 <= r < |g| :: ZeroOne(g[r])
  {
    if g == [] then []
    else if |g| == 1 then "[" + JsonItems(g[0]) + "]"
    else "[" + JsonItems(g[0]) + "], " + JsonRows(g[1..])
  }

  /** `json.dump(grid, f)`. */
  function JsonDump(g: Grid): string
    requires forall r | 0 <= r < |g| :: ZeroOne(g[r])
  {
    "[" + JsonRows(g) + "]"
  }

  /** The cells row after row. */
  function Flatten(g: Grid): (cs: seq<int>)
  {
    if g == [] then [] else g[0] + Flatten(g[1..])
  }

  /** Row-major position `r * GRID_SIZE + c` of a flattened grid is row `r`, column `c`. */
  lemma {:induction false} FlattenAt(g: Grid, r: nat, c: nat)
    requires forall j | 0 <= j < |g| :: |g[j]| == GridSize
    requires r < |g| && c < GridSize
    ensures |Flatten(g)| == |g| * GridSize
    ensures Flatten(g)[r * GridSize + c] == g[r][c]
  {
    if r > 0 {
      FlattenAt(g[1..], r - 1, c);
      assert (r - 1) * GridSize + c == r * GridSize + c - GridSize;
    } else if |g| > 1 {
      FlattenAt(g[1..], 0, c);
    } else {
      assert Flatten(g[1..]) == [];
    }
  }

  /** The separators and brackets hold no `0`/`1`; each value contributes its own cell. */
  lemma {:induction false} CellsOfItems(row: seq<int>)
    requires ZeroOne(row)
    ensures Cells(JsonItems(row)) == row
  {
    if |row| == 1 {
      CellOfText(row[0]);
    } else if |row| > 1 {
      CellOfText(row[0]);
      CellsOfItems(row[1..]);
      CellsNone(", ");
      CellsAppend3(CellText(row[0]), ", ", JsonItems(row[1..]));
      assert [row[0]] + row[1..] == row;
    }
  }

  /** A written cell is counted back as its value. */
  lemma CellOfText(v: int)
    requires v == 0 || v == 1
    ensures Cells(CellText(v)) == [v]
  {
    assert CellText(v)[..0] == [];
  }

  /** A bracket contributes no cell. */
  lemma CellsOfBracket()
    ensures Cells("[") == [] && Cells("]") == [] && Cells("], ") == []
  {
    CellsNone("[");
    CellsNone("]");
    CellsNone("], ");
  }

  /** The rows of the dump yield the cells row after row. */
  lemma {:induction false} CellsOfRows(g: Grid)
    requires forall r | 0 <= r < |g| :: ZeroOne(g[r])
    ensures Cells(JsonRows(g)) == Flatten(g)
  {
    CellsOfBracket();
    if |g| == 1 {
      CellsOfItems(g[0]);
      CellsAround("[", JsonItems(g[0]), "]");
      assert Flatten(g[1..]) == [];
    } else if |g| > 1 {
      CellsOfItems(g[0]);
      CellsOfRows(g[1..]);
      CellsAround("[", JsonItems(g[0]), "], ");
      CellsAppend("[" + JsonItems(g[0]) + "], ", JsonRows(g[1..]));
    }
  }

  /** The counted characters of the dump are the grid's cells in row-major order. */
  lemma CellsOfDump(g: Grid)
    requires forall r | 0 <= r < |g| :: ZeroOne(g[r])
    ensures Cells(JsonDump(g)) == Flatten(g)
  {
    CellsOfBracket();
    CellsOfRows(g);
    CellsAround("[", JsonRows(g), "]");
  }

  /** A 20×20 grid of 0/1 cells saved by `json.dump` loads back as the same grid. */
  lemma JsonRoundTrip(g: Grid)
    requires IsGrid(g) && forall r | 0 <= r < |g| :: ZeroOne(g[r])
    ensures DecodeMap(JsonDump(g)) == Ok(g)
  {
    CellsOfDump(g);
    DecodeFlat(JsonDump(g), g);
  }

  /** A text whose cells are a grid's cells row after row decodes to that grid. */
  lemma DecodeFlat(text: string, g: Grid)
    requires IsGrid(g) && Cells(text) == Flatten(g)
    ensures DecodeMap(text) == Ok(g)
  {
    FlattenAt(g, 0, 0);
    var d := DecodeMap(text).value;
    forall r | 0 <= r < GridSize ensures d[r] == g[r] {
      forall c | 0 <= c < GridSize ensures d[r][c] == g[r][c] {
        RowMajor(r, c);
        FlattenAt(g, r, c);
        assert At(d, r * GridSize + c) == Cells(text)[r * GridSize + c];
      }
    }
    assert d == g;
  }
}
