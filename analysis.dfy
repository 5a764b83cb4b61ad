/**
 * The analysis script's table: `T` holds one row of nine cells per race day
 * (Swim, T1, Bike, Lunch, T2, Run, Total, Bike1, Bike2), `D` the day's
 * "DD.MM." label, and `i` the row of the last race line read. Every race line of
 * the results file fills the next row; the table is then smoothed column by
 * column, and the first race day without a Total time is looked up.
 */
module Analysis {
  import opened Wrappers
  import opened PyText
  import opened Calendar
  import opened RaceLine
  import opened Smoothing

  /** Rows preallocated for the triathlons of the challenge. */
  const N := 120
  /** Width of the moving-average window, in days. */
  const W := 7

  /** How a race line is read into its row, or the exception that reading it raises. */
  type Reader = string -> Result<seq<Cell>, Error>

  /** The race lines of a results file, in the order they appear. */
  function RaceLines(lines: seq<string>): (races: seq<string>)
    ensures |races| <= |lines|
    ensures forall k :: 0 <= k < |races| ==> IsRaceLine(races[k])
  {
    if lines == [] then []
    else
      var last := lines[|lines| - 1];
      RaceLines(lines[..|lines| - 1]) + if IsRaceLine(last) then [last] else []
  }

  /** Reading two pieces of a file one after the other finds the race lines of both, in order. */
  lemma {:induction false} RaceLinesConcat(a: seq<string>, b: seq<string>)
    ensures RaceLines(a + b) == RaceLines(a) + RaceLines(b)
    decreases |b|
  {
    if b == [] {
      assert a + b == a;
    } else {
      var b' := b[..|b| - 1];
      RaceLinesConcat(a, b');
      assert (a + b)[..|a + b| - 1] == a + b';
    }
  }

  /** A line that is not a race line adds nothing; a race line adds itself. */
  lemma RaceLinesOne(line: string)
    ensures RaceLines([line]) == if IsRaceLine(line) then [line] else []
  {
    assert [line][..0] == [];
  }

  /**
   * Each race line gets the next row: race line `lines[j]` is stored in row
   * `|RaceLines(lines[..j])|`, the number of race lines before it, and every
   * line that is not a race line is skipped.
   */
  lemma RaceLineRow(lines: seq<string>, j: nat)
    requires j < |lines|
    ensures IsRaceLine(lines[j]) ==> |RaceLines(lines[..j])| < |RaceLines(lines)| &&
                                     RaceLines(lines)[|RaceLines(lines[..j])|] == lines[j]
    ensures IsRaceLine(lines[j]) ==> RaceLines(lines[..j + 1]) == RaceLines(lines[..j]) + [lines[j]]
    ensures !IsRaceLine(lines[j]) ==> RaceLines(lines[..j + 1]) == RaceLines(lines[..j])
  {
    assert lines == lines[..j] + [lines[j]] + lines[j + 1..];
    assert lines[..j + 1] == lines[..j] + [lines[j]];
    RaceLinesConcat(lines[..j] + [lines[j]], lines[j + 1..]);
    RaceLinesConcat(lines[..j], [lines[j]]);
    RaceLinesOne(lines[j]);
  }

  /** What each race line parses into with `read`: its row, or the exception it raises. */
  function Parsed(read: Reader, races: seq<string>): (parsed: seq<Result<seq<Cell>, Error>>)
    ensures |parsed| == |races|
    ensures forall k :: 0 <= k < |races| ==> parsed[k] == read(races[k])
  {
    seq(|races|, k requires 0 <= k < |races| => read(races[k]))
  }

  /** Two pieces of a file parse into what each of them parses into. */
  lemma ParsedConcat(read: Reader, a: seq<string>, b: seq<string>)
    ensures Parsed(read, a + b) == Parsed(read, a) + Parsed(read, b)
  {
    assert forall k :: 0 <= k < |a| + |b| ==> (a + b)[k] == if k < |a| then a[k] else b[k - |a|];
  }

  /** One more race line adds what it parses into. */
  lemma ParsedStep(read: Reader, races: seq<string>, line: string)
    ensures Parsed(read, races + [line]) == Parsed(read, races) + [read(line)]
  {
    assert forall k :: 0 <= k < |races| ==> (races + [line])[k] == races[k];
  }

  /**
   * What race line `k` of a run that starts at row `first` comes to: IndexError
   * when its row is past the table (the assignment to `D[i]`), otherwise what the
   * line parses into.
   */
  function Slots(parsed: seq<Result<seq<Cell>, Error>>, first: int): (slots: seq<Result<seq<Cell>, Error>>)
    ensures |slots| == |parsed|
    ensures forall k :: 0 <= k < |parsed| ==>
              slots[k] == if first + k >= N then Failure(TableIndexError(first + k)) else parsed[k]
  {
    seq(|parsed|, k requires 0 <= k < |parsed| => if first + k >= N then Failure(TableIndexError(first + k)) else parsed[k])
  }

  /**
   * The rows that parsed race lines fill, in order, from row `first` on; the
   * first race line that raises stops the loading with its exception.
   */
  function Load(parsed: seq<Result<seq<Cell>, Error>>, first: int): (r: Result<seq<seq<Cell>>, Error>)
  {
    Collect(Slots(parsed, first))
  }

  /** Race line `k` finds its row and parses. */
  predicate Storable(parsed: seq<Result<seq<Cell>, Error>>, first: int, k: nat)
    requires k < |parsed|
  {
    first + k < N && parsed[k].Success?
  }

  /**
   * Loading succeeds exactly when every race line finds its row and parses, and
   * then row `first + k` holds the cells of race line `k`; otherwise the exception
   * is that of the first race line that does not: IndexError for the row past the
   * table, or the line's own.
   */
  lemma LoadMeaning(parsed: seq<Result<seq<Cell>, Error>>, first: int)
    ensures Load(parsed, first).Success? <==> forall k :: 0 <= k < |parsed| ==> Storable(parsed, first, k)
    ensures Load(parsed, first).Success? ==>
              |Load(parsed, first).value| == |parsed| &&
              forall k :: 0 <= k < |parsed| ==> parsed[k] == Success(Load(parsed, first).value[k])
    ensures Load(parsed, first).Failure? ==>
              exists k :: 0 <= k < |parsed| && (forall m :: 0 <= m < k ==> Storable(parsed, first, m)) &&
                          !Storable(parsed, first, k) &&
                          Load(parsed, first).error == (if first + k >= N then TableIndexError(first + k) else parsed[k].error)
  {
    var slots := Slots(parsed, first);
    CollectSucceeds(slots);
    CollectFails(slots);
    if Load(parsed, first).Failure? {
      var k :| 0 <= k < |slots| && slots[k] == Failure(Load(parsed, first).error) &&
               forall m :: 0 <= m < k ==> slots[m].Success?;
      forall m | 0 <= m < k ensures Storable(parsed, first, m) {
        assert slots[m].Success?;
      }
      assert !Storable(parsed, first, k);
    } else {
      assert forall k :: 0 <= k < |parsed| ==> slots[k].Success? ==> Storable(parsed, first, k);
    }
  }

  /** Loading one more race line, as one pass of the loop does. */
  lemma LoadStep(parsed: seq<Result<seq<Cell>, Error>>, p: Result<seq<Cell>, Error>, first: int)
    ensures Load(parsed + [p], first) ==
              match Load(parsed, first)
              case Failure(e) => Failure(e)
              case Success(rows) =>
                if first + |parsed| >= N then Failure(TableIndexError(first + |parsed|))
                else
                  match p
                  case Failure(e) => Failure(e)
                  case Success(cells) => Success(rows + [cells])
  {
    var last := if first + |parsed| >= N then Failure(TableIndexError(first + |parsed|)) else p;
    assert Slots(parsed + [p], first) == Slots(parsed, first) + [last];
    CollectAppend(Slots(parsed, first), last);
  }

  /** An exception stops the loading for good: more race lines after it change nothing. */
  lemma LoadStops(a: seq<Result<seq<Cell>, Error>>, b: seq<Result<seq<Cell>, Error>>, first: int)
    requires Load(a, first).Failure?
    ensures Load(a + b, first) == Load(a, first)
  {
    assert Slots(a + b, first) == Slots(a, first) + Slots(b, first + |a|);
    CollectStops(Slots(a, first), Slots(b, first + |a|));
  }

  /** A sequence is its first `j` elements followed by the rest. */
  lemma SplitAt<T>(s: seq<T>, j: nat)
    requires j <= |s|
    ensures s == s[..j] + s[j..]
  {
  }

  /**
   * The loop over the lines of a file, rows being taken from `first` on: a line
   * that is not a race line is skipped, a race line raises IndexError when no row
   * is left, and otherwise adds its row or raises its own exception. The first
   * exception ends the run.
   */
  function Run(read: Reader, lines: seq<string>, first: int): (r: Result<seq<seq<Cell>>, Error>)
  {
    if lines == [] then Success([])
    else
      var last := lines[|lines| - 1];
      match Run(read, lines[..|lines| - 1], first)
      case Failure(e) => Failure(e)
      case Success(rows) =>
        if !IsRaceLine(last) then Success(rows)
        else if first + |rows| >= N then Failure(TableIndexError(first + |rows|))
        else
          match read(last)
          case Failure(e) => Failure(e)
          case Success(cells) => Success(rows + [cells])
  }

  /** One more line of the file, as one pass of the loop. */
  lemma RunStep(read: Reader, lines: seq<string>, j: nat, first: int)
    requires j < |lines|
    ensures Run(read, lines[..j + 1], first) ==
              match Run(read, lines[..j], first)
              case Failure(e) => Failure(e)
              case Success(rows) =>
                if !IsRaceLine(lines[j]) then Success(rows)
                else if first + |rows| >= N then Failure(TableIndexError(first + |rows|))
                else
                  match read(lines[j])
                  case Failure(e) => Failure(e)
                  case Success(cells) => Success(rows + [cells])
  {
    assert lines[..j + 1][..j] == lines[..j];
  }

  /** Once a line has raised, the rest of the file changes nothing. */
  lemma {:induction false} RunStops(read: Reader, a: seq<string>, b: seq<string>, first: int)
    requires Run(read, a, first).Failure?
    ensures Run(read, a + b, first) == Run(read, a, first)
    decreases |b|
  {
    if b != [] {
      RunStops(read, a, b[..|b| - 1], first);
      assert (a + b)[..|a + b| - 1] == a + b[..|b| - 1];
    } else {
      assert a + b == a;
    }
  }

  /**
   * The loop stores race line `k` of the file in row `first + k`: running over the
   * lines is loading what the race lines parse into, in the order they appear.
   */
  lemma {:induction false} RunIsLoad(read: Reader, lines: seq<string>, first: int)
    ensures Run(read, lines, first) == Load(Parsed(read, RaceLines(lines)), first)
    decreases |lines|
  {
    if lines != [] {
      var j := |lines| - 1;
      assert lines[..j + 1] == lines;
      RunIsLoad(read, lines[..j], first);
      var done := Parsed(read, RaceLines(lines[..j]));
      RaceLineRow(lines, j);
      LoadMeaning(done, first);
      if IsRaceLine(lines[j]) {
        ParsedStep(read, RaceLines(lines[..j]), lines[j]);
        LoadStep(done, read(lines[j]), first);
      }
    }
  }

  /**
   * Lines 63-118 of the loop body, the seven blocks taken one after the other from
   * the layout table: field `k` starts `Skip(k)` past the next `Opener(k)` after
   * where field `k - 1` ended, and ends at the next `Closer(k)`. A conversion that
   * fails gives a missing cell; `line[j1]` past the end of the line raises
   * IndexError. Bike1 and Bike2 are half of Bike.
   */
  method ReadRow(line: string) returns (row: Result<seq<Cell>, Error>)
    ensures row == ParseFields(line)
  {
    var cells: seq<Cell> := [];
    var j2 := 0;
    for k := 0 to FIELDS
      invariant CellsOf(line, cells, k)
      invariant j2 == if k == 0 then 0 else Span(line, k - 1).1
    {
      var j1 := Find(line, Opener(k), j2) + Skip(k);
      var end := Find(line, Closer(k), j1);
      FieldStep(line, k, j2, j1, end);
      j2 := end;
      var cell := match ShapeOf(k)
        case Clock => ClockValue(line, j1, j2)
        case Minutes => Success(MinutesValue(line, j1, j2))
        case Total => Success(TotalValue(line, j1, j2));
      if cell.Failure? {
        FailsAfterCells(line, cells, k, cell.error);
        return Failure(cell.error);
      }
      CellsStep(line, cells, k, cell.value);
      cells := cells + [cell.value];
    }
    ParseFieldsOfCells(line, cells);
    row := Success(cells + [Half(cells[BIKE]), Half(cells[BIKE])]);
  }

  /** `g` with its entries from `first` on replaced by `xs`. */
  function Overlay<X>(g: seq<X>, first: nat, xs: seq<X>): (r: seq<X>)
    requires first + |xs| <= |g|
    ensures |r| == |g|
  {
    g[..first] + xs + g[first + |xs|..]
  }

  /** Entry `first + k` of the overlay is `xs[k]`; every other entry is that of `g`. */
  lemma OverlayAt<X>(g: seq<X>, first: nat, xs: seq<X>)
    requires first + |xs| <= |g|
    ensures forall k :: 0 <= k < |xs| ==> Overlay(g, first, xs)[first + k] == xs[k]
    ensures forall r :: 0 <= r < |g| && !(first <= r < first + |xs|) ==> Overlay(g, first, xs)[r] == g[r]
  {
  }

  /** Writing the entry right after an overlay extends the overlay by that entry. */
  lemma OverlayStep<X>(g: seq<X>, first: nat, xs: seq<X>, x: X)
    requires first + |xs| < |g|
    ensures Overlay(g, first, xs)[first + |xs| := x] == Overlay(g, first, xs + [x])
  {
    OverlayAt(g, first, xs);
    OverlayAt(g, first, xs + [x]);
  }

  /** The values of `f` at the `n` arguments from `first` on. */
  function Tabulate<X>(f: nat -> X, first: nat, n: nat): (xs: seq<X>)
    ensures |xs| == n && forall k :: 0 <= k < n ==> xs[k] == f(first + k)
  {
    seq(n, k requires 0 <= k < n => f(first + k))
  }

  /** One more argument adds its value at the end. */
  lemma TabulateStep<X>(f: nat -> X, first: nat, n: nat)
    ensures Tabulate(f, first, n + 1) == Tabulate(f, first, n) + [f(first + n)]
  {
    var xs, ys := Tabulate(f, first, n + 1), Tabulate(f, first, n) + [f(first + n)];
    forall k | 0 <= k < n + 1 ensures xs[k] == ys[k] {
    }
  }

  /** The labels of the `n` days from day `first` on: entry `k` is the label of day `first + k`. */
  function Labels(first: nat, n: nat): (labels: seq<string>)
    ensures |labels| == n
  {
    Tabulate(DateLabel, first, n)
  }

  /**
   * What the loop over the file keeps after its first `j` lines, rows being
   * taken from `first` on: those lines ran to the rows `rows`, the table `g`
   * holds them over `grid`, the labels `d` hold their days' labels over
   * `labels`, and `last` is the row of the last race line read.
   */
  ghost predicate Holds(read: Reader, dayLabel: nat -> string, lines: seq<string>, j: nat, first: nat, rows: seq<seq<Cell>>,
                        grid: seq<seq<Cell>>, labels: seq<string>, g: seq<seq<Cell>>, d: seq<string>, last: int)
  {
    && j <= |lines| && |grid| == N && |labels| == N && first + |rows| <= N
    && Run(read, lines[..j], first) == Success(rows) && last == first - 1 + |rows|
    && g == Overlay(grid, first, rows)
    && d == Overlay(labels, first, Tabulate(dayLabel, first, |rows|))
  }

  /**
   * Line `j` keeps `Holds`: a line that is not a race line changes nothing; a
   * race line past the last row stops the run with `IndexError`; a race line
   * that raises stops it with that error; any other race line fills the next
   * row and its label.
   */
  lemma HoldsStep(read: Reader, dayLabel: nat -> string, lines: seq<string>, j: nat, first: nat, rows: seq<seq<Cell>>,
                  grid: seq<seq<Cell>>, labels: seq<string>, g: seq<seq<Cell>>, d: seq<string>, last: int)
    requires j < |lines| && Holds(read, dayLabel, lines, j, first, rows, grid, labels, g, d, last)
    ensures !IsRaceLine(lines[j]) ==> Holds(read, dayLabel, lines, j + 1, first, rows, grid, labels, g, d, last)
    ensures IsRaceLine(lines[j]) && last + 1 >= N ==> Run(read, lines[..j + 1], first) == Failure(TableIndexError(last + 1))
    ensures IsRaceLine(lines[j]) && last + 1 < N && read(lines[j]).Failure? ==>
              Run(read, lines[..j + 1], first) == Failure(read(lines[j]).error)
    ensures IsRaceLine(lines[j]) && last + 1 < N && read(lines[j]).Success? ==>
              var cells := read(lines[j]).value;
              Holds(read, dayLabel, lines, j + 1, first, rows + [cells], grid, labels,
                    g[last + 1 := cells], d[last + 1 := dayLabel(last + 1)], last + 1)
  {
    RunStep(read, lines, j, first);
    if IsRaceLine(lines[j]) && last + 1 < N && read(lines[j]).Success? {
      var cells := read(lines[j]).value;
      OverlayStep(grid, first, rows, cells);
      OverlayStep(labels, first, Tabulate(dayLabel, first, |rows|), dayLabel(last + 1));
      TabulateStep(dayLabel, first, |rows|);
    }
  }

  /** Column `c` of the rows `g`. */
  function ColumnOf(g: seq<seq<Cell>>, c: nat): (t: seq<Cell>)
    requires forall r :: 0 <= r < |g| ==> c < |g[r]|
    ensures |t| == |g| && forall r :: 0 <= r < |g| ==> t[r] == g[r][c]
  {
    seq(|g|, r requires 0 <= r < |g| => g[r][c])
  }

  /** The column of a table is that of its first `n` rows followed by that of the rest. */
  lemma ColumnOfSplit(g: seq<seq<Cell>>, n: nat, c: nat)
    requires n <= |g| && forall r :: 0 <= r < |g| ==> c < |g[r]|
    ensures ColumnOf(g, c) == ColumnOf(g[..n], c) + ColumnOf(g[n..], c)
  {
    var t, u := ColumnOf(g, c), ColumnOf(g[..n], c) + ColumnOf(g[n..], c);
    forall r | 0 <= r < |g|
      ensures t[r] == u[r]
    {
      if r >= n {
        assert g[r] == g[n..][r - n];
      }
    }
  }

  /** A row as `np.zeros` leaves it. */
  predicate ZeroRow(row: seq<Cell>)
  {
    |row| == COLUMNS && forall c :: 0 <= c < COLUMNS ==> row[c] == Val(0.0)
  }

  /** Zero rows overlaid from the top with the rows of the race days: those rows come first, and the rest stay zero. */
  lemma LoadedGrid(zeros: seq<seq<Cell>>, g: seq<seq<Cell>>, rows: seq<seq<Cell>>)
    requires |rows| <= |zeros| && forall k :: 0 <= k < |zeros| ==> ZeroRow(zeros[k])
    requires g == Overlay(zeros, 0, rows) && forall k :: 0 <= k < |g| ==> |g[k]| == COLUMNS
    ensures forall k :: 0 <= k < |rows| ==> |rows[k]| == COLUMNS
    ensures g[..|rows|] == rows
    ensures forall k :: |rows| <= k < |g| ==> ZeroRow(g[k])
  {
    OverlayAt(zeros, 0, rows);
    assert forall k :: 0 <= k < |rows| ==> g[k] == rows[k];
  }

  /** Empty labels overlaid from the top with the labels of the race days: those labels come first, and the rest stay empty. */
  lemma LoadedLabels(blank: seq<string>, d: seq<string>, labels: seq<string>)
    requires |labels| <= |blank| && forall k :: 0 <= k < |blank| ==> blank[k] == ""
    requires d == Overlay(blank, 0, labels)
    ensures d[..|labels|] == labels
    ensures forall k :: |labels| <= k < |d| ==> d[k] == ""
  {
    OverlayAt(blank, 0, labels);
    assert forall k :: 0 <= k < |labels| ==> d[k] == labels[k];
  }

  /**
   * `np.min(np.where(np.isnan(t))) + 1`: the 1-based day of the first missing
   * cell of `t`, or the ValueError of `np.min` when no cell is missing.
   */
  function FirstMissing(t: seq<Cell>): (r: Result<nat, Error>)
    ensures r.Success? <==> exists k :: 0 <= k < |t| && t[k].Missing?
    ensures r.Success? ==> 1 <= r.value <= |t| && t[r.value - 1].Missing? && forall k :: 0 <= k < r.value - 1 ==> t[k].Val?
    ensures r.Failure? ==> r.error == EmptyMinimum
  {
    if t == [] then Failure(EmptyMinimum)
    else if t[0].Missing? then Success(1)
    else
      match FirstMissing(t[1..])
      case Success(day) => assert t[day] == t[1..][day - 1]; Success(day + 1)
      case Failure(e) => Failure(e)
  }

  /** Rows after the race days hold zeros, never NaN, so they do not move the first missing day. */
  lemma FirstMissingIgnoresPadding(t: seq<Cell>, pad: seq<Cell>)
    requires forall k :: 0 <= k < |pad| ==> pad[k].Val?
    ensures FirstMissing(t + pad) == FirstMissing(t)
  {
    var b := FirstMissing(t);
    if b.Success? {
      assert (t + pad)[b.value - 1] == t[b.value - 1];
    }
  }

  /** When the rows after the first `n` are zero, the first missing Total is among the first `n` rows. */
  lemma FirstMissingOfLoaded(g: seq<seq<Cell>>, n: nat)
    requires n <= |g| && forall k :: 0 <= k < |g| ==> |g[k]| == COLUMNS
    requires forall k :: n <= k < |g| ==> ZeroRow(g[k])
    ensures FirstMissing(ColumnOf(g, TOTAL)) == FirstMissing(ColumnOf(g[..n], TOTAL))
  {
    ColumnOfSplit(g, n, TOTAL);
    ZeroPadding(g, n);
    FirstMissingIgnoresPadding(ColumnOf(g[..n], TOTAL), ColumnOf(g[n..], TOTAL));
  }

  /** Zero rows have no missing Total. */
  lemma ZeroPadding(g: seq<seq<Cell>>, n: nat)
    requires n <= |g| && forall k :: 0 <= k < |g| ==> |g[k]| == COLUMNS
    requires forall k :: n <= k < |g| ==> ZeroRow(g[k])
    ensures forall k :: 0 <= k < |g| - n ==> ColumnOf(g[n..], TOTAL)[k].Val?
  {
    forall k | 0 <= k < |g| - n
      ensures ColumnOf(g[n..], TOTAL)[k].Val?
    {
      assert g[n..][k] == g[n + k];
    }
  }

  class RaceTable {
    /** One row per day, one column per label. */
    var T: array2<Cell>
    /** The "DD.MM." label of each day. */
    var D: array<string>
    /** The row of the last race line read, -1 before the first. */
    var i: int

    predicate Valid()
      reads this
    {
      T.Length0 == N && T.Length1 == COLUMNS && D.Length == N && -1 <= i < N
    }

    /** `T = np.zeros((N, len(L)))`, `D = [''] * N`, `i = -1`. */
    constructor ()
      ensures Valid() && fresh(T) && fresh(D) && i == -1
      ensures forall r, c :: 0 <= r < N && 0 <= c < COLUMNS ==> T[r, c] == Val(0.0)
      ensures forall r :: 0 <= r < N ==> D[r] == ""
      ensures |Grid()| == N && forall r :: 0 <= r < N ==> ZeroRow(Grid()[r])
    {
      T := new Cell[N, COLUMNS]((r, c) => Val(0.0));
      D := new string[N](r => "");
      i := -1;
    }

    /** The rows of `T`, as values. */
    function Grid(): (g: seq<seq<Cell>>)
      reads this`T, T
      ensures |g| == T.Length0
    {
      var t := T;
      seq(t.Length0, r requires 0 <= r < t.Length0 reads t => seq(t.Length1, c requires 0 <= c < t.Length1 reads t => t[r, c]))
    }

    /** Row `r` of the grid holds the cells of row `r` of `T`. */
    lemma GridCells()
      ensures forall r :: 0 <= r < T.Length0 ==> |Grid()[r]| == T.Length1 && forall c :: 0 <= c < T.Length1 ==> Grid()[r][c] == T[r, c]
    {
    }

    /** `T[0:n, c]`: the cells of column `c` in the first `n` rows. */
    function Column(c: nat, n: nat): (t: seq<Cell>)
      requires Valid() && c < COLUMNS && n <= N
      reads this, T
      ensures |t| == n && forall r :: 0 <= r < n ==> t[r] == T[r, c]
    {
      var a := T;
      seq(n, r requires 0 <= r < n reads a => a[r, c])
    }

    /** The column of `T` is the column of its rows. */
    lemma ColumnOfGrid(c: nat, n: nat)
      requires Valid() && c < COLUMNS && n <= N
      ensures Column(c, n) == ColumnOf(Grid()[..n], c)
    {
      GridCells();
    }

    /** The columns of a table loaded with `rows` are those of the rows, padded with zeros. */
    lemma ColumnsOfLoaded(rows: seq<seq<Cell>>)
      requires LoadedWith(rows, this)
      ensures forall c :: 0 <= c < COLUMNS ==> Column(c, i + 1) == ColumnOf(rows, c)
      ensures FirstMissing(Column(TOTAL, N)) == FirstMissing(ColumnOf(rows, TOTAL))
    {
      GridCells();
      forall c | 0 <= c < COLUMNS
        ensures Column(c, |rows|) == ColumnOf(rows, c)
      {
        ColumnOfGrid(c, |rows|);
      }
      ColumnOfGrid(TOTAL, N);
      assert Grid()[..N] == Grid();
      FirstMissingOfLoaded(Grid(), |rows|);
    }

    /** What `Smooth` computes on a table loaded with `rows` is the smoothed columns of the rows. */
    lemma SmoothedOfLoaded(rows: seq<seq<Cell>>, S: array2<Cell>)
      requires LoadedWith(rows, this) && S.Length0 == N && S.Length1 == COLUMNS
      requires forall r, c :: 0 <= r < N && 0 <= c < COLUMNS ==>
                 S[r, c] == if r <= i then Smoothed(Column(c, i + 1), W)[r] else Val(0.0)
      ensures SmoothedFrom(rows, S)
    {
      ColumnsOfLoaded(rows);
    }

    /** `D[i]`: the day and the month of the date `di` of row `i`, each as two zero-padded digits, each followed by '.'. */
    method StoreLabel()
      requires Valid() && 0 <= i
      modifies D
      ensures D[..] == old(D[..])[i := DateLabel(i)]
    {
      D[i] := DateLabel(i);
    }

    /** Row `i` of `T` takes the cells of a race line; no other row changes. */
    method StoreRow(cells: seq<Cell>)
      requires Valid() && 0 <= i && |cells| == COLUMNS
      modifies T
      ensures Grid() == old(Grid())[i := cells]
    {
      for c := 0 to COLUMNS
        invariant forall r, c' :: 0 <= r < N && 0 <= c' < COLUMNS && !(r == i && c' < c) ==> T[r, c'] == old(T[r, c'])
        invariant forall c' :: 0 <= c' < c ==> T[i, c'] == cells[c']
      {
        T[i, c] := cells[c];
      }
      GridCells();
      ghost var g, h := Grid(), old(Grid())[i := cells];
      assert forall r :: 0 <= r < N ==> |h[r]| == COLUMNS && forall c :: 0 <= c < COLUMNS ==> h[r][c] == if r == i then cells[c] else old(T[r, c]) by {
        forall r | 0 <= r < N ensures |h[r]| == COLUMNS && forall c :: 0 <= c < COLUMNS ==> h[r][c] == if r == i then cells[c] else old(T[r, c]) {
          if r != i { assert h[r] == old(Grid())[r]; }
        }
      }
      forall r | 0 <= r < N
        ensures g[r] == h[r]
      {
        assert |g[r]| == |h[r]|;
        assert forall c :: 0 <= c < COLUMNS ==> g[r][c] == h[r][c];
      }
    }

    /**
     * One pass of the loop over the file's lines. A line that is not a race line
     * changes nothing. A race line takes the next row: it raises IndexError when
     * the preallocated rows are used up, and otherwise stores the day's label and
     * then the line's nine cells, or raises the IndexError of the first Clock field
     * that starts past the end of the line.
     */
    method ProcessLine(line: string) returns (err: Option<Error>)
      requires Valid()
      modifies this, T, D
      ensures T == old(T) && D == old(D)
      ensures !IsRaceLine(line) ==> err.None? && i == old(i) && unchanged(T) && unchanged(D)
      ensures IsRaceLine(line) ==> i == old(i) + 1
      ensures IsRaceLine(line) && i >= N ==> err == Some(TableIndexError(i)) && unchanged(T) && unchanged(D)
      ensures IsRaceLine(line) && i < N ==>
                && D[..] == old(D[..])[i := DateLabel(i)]
                && (err.None? <==> ParseFields(line).Success?)
                && (err.None? ==> Grid() == old(Grid())[i := ParseFields(line).value])
                && (err.Some? ==> err == Some(ParseFields(line).error))
      ensures err.None? ==> Valid()
    {
      if !IsRaceLine(line) {
        return None;
      }
      ghost var g0 := Grid();
      i := i + 1;
      if i >= N {
        return Some(TableIndexError(i));
      }
      StoreLabel();
      var row := ReadRow(line);
      if row.Failure? {
        return Some(row.error);
      }
      assert Grid() == g0;
      StoreRow(row.value);
      return None;
    }

    /**
     * One pass of the outer smoothing loop: `S[i-1, c] = np.nanmean(...)` for
     * the days `1..n` of column `c`, with `n` the number of race days read.
     */
    method SmoothColumn(S: array2<Cell>, c: nat)
      requires Valid() && S != T && S.Length0 == N && S.Length1 == COLUMNS && c < COLUMNS
      modifies S
      ensures forall r, c' :: 0 <= r < N && 0 <= c' < COLUMNS ==>
                S[r, c'] == if c' == c && r <= i then Smoothed(Column(c, i + 1), W)[r] else old(S[r, c'])
    {
      var n := i + 1;
      var t := Column(c, n);
      for x := 1 to n + 1
        invariant forall r, c' :: 0 <= r < N && 0 <= c' < COLUMNS ==>
                    S[r, c'] == if c' == c && r < x - 1 then Smoothed(t, W)[r] else old(S[r, c'])
      {
        var m := MaskedMean(t, x, W);
        S[x - 1, c] := m;
      }
    }

    /**
     * `S = np.zeros(T.shape)` and the smoothing loops (lines 126-131): row `r`
     * of column `c` holds the moving average of day `r + 1` over the race days
     * of that column; the rows after the race days stay zero.
     */
    method Smooth() returns (S: array2<Cell>)
      requires Valid()
      ensures fresh(S) && S.Length0 == N && S.Length1 == COLUMNS
      ensures forall r, c :: 0 <= r < N && 0 <= c < COLUMNS ==>
                S[r, c] == if r <= i then Smoothed(Column(c, i + 1), W)[r] else Val(0.0)
    {
      S := new Cell[N, COLUMNS]((r, c) => Val(0.0));
      for c := 0 to COLUMNS
        invariant forall r, c' :: 0 <= r < N && 0 <= c' < COLUMNS ==>
                    S[r, c'] == if c' < c && r <= i then Smoothed(Column(c', i + 1), W)[r] else Val(0.0)
      {
        SmoothColumn(S, c);
      }
    }

    /** `Holds` of the table's current state. */
    ghost predicate Loaded(lines: seq<string>, j: nat, first: nat, rows: seq<seq<Cell>>, grid: seq<seq<Cell>>, labels: seq<string>)
      reads this, T, D
    {
      Valid() && Holds(ParseFields, DateLabel, lines, j, first, rows, grid, labels, Grid(), D[..], i)
    }

    /** One pass of the loop of `ProcessLines`: line `j` of the file goes through `ProcessLine`. */
    method Advance(lines: seq<string>, j: nat, ghost first: nat, ghost rows: seq<seq<Cell>>, ghost grid: seq<seq<Cell>>, ghost labels: seq<string>)
      returns (err: Option<Error>, ghost next: seq<seq<Cell>>)
      requires j < |lines| && Loaded(lines, j, first, rows, grid, labels)
      modifies this, T, D
      ensures T == old(T) && D == old(D)
      ensures err.None? ==> Loaded(lines, j + 1, first, next, grid, labels)
      ensures err.Some? ==> Run(ParseFields, lines[..j + 1], first) == Failure(err.value)
    {
      ghost var g0, d0 := Grid(), D[..];
      HoldsStep(ParseFields, DateLabel, lines, j, first, rows, grid, labels, g0, d0, i);
      next := rows;
      err := ProcessLine(lines[j]);
      if err.None? && IsRaceLine(lines[j]) {
        ghost var cells := ParseFields(lines[j]).value;
        assert Grid() == g0[i := cells] && D[..] == d0[i := DateLabel(i)];
        next := rows + [cells];
      }
    }

    /**
     * The loop over the file's lines (lines 49-118), as `Run` describes it: from
     * the row after the last one used, each race line fills the next row of `T`
     * and labels it in `D`; the loop stops at the first race line that raises.
     */
    method ProcessLines(lines: seq<string>) returns (err: Option<Error>)
      requires Valid()
      modifies this, T, D
      ensures T == old(T) && D == old(D)
      ensures var run := Run(ParseFields, lines, old(i) + 1);
              && (err.None? <==> run.Success?)
              && (err.Some? ==> err.value == run.error)
              && (err.None? ==>
                    && Valid() && i == old(i) + |run.value|
                    && Grid() == Overlay(old(Grid()), old(i) + 1, run.value)
                    && D[..] == Overlay(old(D[..]), old(i) + 1, Labels(old(i) + 1, |run.value|)))
    {
      ghost var first := i + 1;
      ghost var grid, labels := Grid(), D[..];
      ghost var rows: seq<seq<Cell>> := [];
      err := None;
      for j := 0 to |lines|
        invariant T == old(T) && D == old(D) && err.None?
        invariant Loaded(lines, j, first, rows, grid, labels)
      {
        err, rows := Advance(lines, j, first, rows, grid, labels);
        if err.Some? {
          SplitAt(lines, j + 1);
          RunStops(ParseFields, lines[..j + 1], lines[j + 1..], first);
          return;
        }
      }
      assert lines[..|lines|] == lines;
    }
  }

  /** What the script computes from a results file that it reads to the end. */
  datatype Report = Report(table: RaceTable, smoothed: array2<Cell>, missingDay: nat)

  /**
   * The table holds the rows of the race days on top of zero rows, and the labels
   * of the race days on top of empty labels.
   */
  ghost predicate LoadedWith(rows: seq<seq<Cell>>, table: RaceTable)
    reads table, table.T, table.D
  {
    && (forall k :: 0 <= k < |rows| ==> |rows[k]| == COLUMNS)
    && table.Valid() && table.i == |rows| - 1
    && table.Grid()[..|rows|] == rows
    && (forall k :: |rows| <= k < N ==> ZeroRow(table.Grid()[k]))
    && table.D[..|rows|] == Labels(0, |rows|)
    && forall k :: |rows| <= k < N ==> table.D[k] == ""
  }

  /** `S` holds the smoothed columns of the race days on top of zeros. */
  ghost predicate SmoothedFrom(rows: seq<seq<Cell>>, S: array2<Cell>)
    reads S
  {
    && (forall k :: 0 <= k < |rows| ==> |rows[k]| == COLUMNS)
    && S.Length0 == N && S.Length1 == COLUMNS
    && forall k, c :: 0 <= k < N && 0 <= c < COLUMNS ==>
         S[k, c] == if k < |rows| then Smoothed(ColumnOf(rows, c), W)[k] else Val(0.0)
  }

  /**
   * How the script ends once the race days have given `rows`: `np.min` raises
   * when no Total is missing; otherwise the report holds the first race day
   * without a Total, over the loaded and the smoothed table.
   */
  ghost predicate Reports(rows: seq<seq<Cell>>, r: Result<Report, Error>)
    reads if r.Success? then {r.value.table, r.value.table.T, r.value.table.D, r.value.smoothed} else {}
  {
    && (forall k :: 0 <= k < |rows| ==> |rows[k]| == COLUMNS)
    && var day := FirstMissing(ColumnOf(rows, TOTAL));
    && (day.Failure? ==> r == Failure(EmptyMinimum))
    && (day.Success? ==>
          && r.Success? && r.value.missingDay == day.value
          && LoadedWith(rows, r.value.table) && SmoothedFrom(rows, r.value.smoothed))
  }

  /** Lines 121-134 on a table loaded with the rows of the race days: smoothing, then the first missing day. */
  method Conclude(table: RaceTable, ghost rows: seq<seq<Cell>>) returns (r: Result<Report, Error>)
    requires LoadedWith(rows, table)
    ensures Reports(rows, r)
  {
    table.ColumnsOfLoaded(rows);
    var S := table.Smooth();
    table.SmoothedOfLoaded(rows, S);
    var day := FirstMissing(table.Column(TOTAL, N));
    if day.Failure? {
      return Failure(day.error);
    }
    r := Success(Report(table, S, day.value));
  }

  /**
   * The script from the preallocation of the table (lines 43-46) to the first
   * missing day (line 134): the race lines of the file fill the first rows of
   * `T`, the rest stay zero; `S` smooths the race days of every column; and the
   * first missing day is the first race day without a Total time. An exception
   * ends the script: that of the first race line that raises, or `np.min`'s
   * when every Total is present.
   */
  method Analyse(lines: seq<string>) returns (r: Result<Report, Error>)
    ensures var run := Run(ParseFields, lines, 0);
            && (run.Failure? ==> r == Failure(run.error))
            && (run.Success? ==> Reports(run.value, r))
  {
    var table := new RaceTable();
    ghost var zeros, blank := table.Grid(), table.D[..];
    var err := table.ProcessLines(lines);
    if err.Some? {
      return Failure(err.value);
    }
    ghost var rows := Run(ParseFields, lines, 0).value;
    table.GridCells();
    LoadedGrid(zeros, table.Grid(), rows);
    LoadedLabels(blank, table.D[..], Labels(0, |rows|));
    r := Conclude(table, rows);
  }
}
