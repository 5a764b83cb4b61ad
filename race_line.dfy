/**
 * One line of the results file: whether it is a race-day line, where each of
 * the seven time fields is read from, and the nine cells of its table row.
 *
 * Fields are located left to right: each field starts `skip` characters past
 * its opening delimiter, searched from where the previous field's closing
 * delimiter was found, and ends at its own closing delimiter. A conversion that
 * fails (ValueError) gives a missing cell and the scan goes on from the
 * positions already found; only `line[j1]` past the end of the line raises an
 * exception the script does not catch.
 */
module RaceLine {
  import opened Wrappers
  import opened PyText

  /** A cell of the table: a time in hours, or NaN. */
  datatype Cell = Missing | Val(hours: real)

  /** Exceptions the script does not catch. */
  datatype Error =
    | LineIndexError(pos: int)    // `line[j1]` outside the line
    | TableIndexError(row: int)   // a race line beyond the preallocated rows of T and D
    | EmptyMinimum                // `np.min` over an empty selection

  // Columns of the table, in the order of the list of labels L.
  const SWIM := 0
  const T1 := 1
  const BIKE := 2
  const LUNCH := 3
  const T2 := 4
  const RUN := 5
  const TOTAL := 6
  const BIKE1 := 7
  const BIKE2 := 8
  const COLUMNS := 9
  /** The measured fields, Swim to Total; Bike1 and Bike2 are derived. */
  const FIELDS := 7

  /** `x / 2` on a cell; NaN stays NaN. The two halves add up to the whole. */
  function Half(c: Cell): (r: Cell)
    ensures r.Missing? <==> c.Missing?
    ensures c.Val? ==> r.hours + r.hours == c.hours
  {
    match c
    case Missing => Missing
    case Val(h) => Val(h / 2.0)
  }

  /** `'. LD' in line or '.LD' in line`: the line reports a long-distance race day. */
  predicate IsRaceLine(line: string)
  {
    Contains(line, ". LD") || Contains(line, ".LD")
  }

  /** A line is a race line exactly when `find` locates either marker in it. */
  lemma RaceLineIffFound(line: string)
    ensures IsRaceLine(line) <==> Find(line, ". LD", 0) != -1 || Find(line, ".LD", 0) != -1
  {
  }

  /** How a field's text is turned into hours. */
  datatype Shape =
    | Clock    // `int(line[j1]) + int(line[j1+2:j2])/60`: one hour digit, a separator, minutes
    | Minutes  // `int(line[j1:j2])/60`
    | Total    // `int(line[j1:j1+2]) + int(line[j1+3:j2])/60`: two hour characters, a separator, minutes

  /**
   * Where field `k` is read: it starts `skip` characters past the next `opener`
   * and ends at the next `closer`.
   */
  datatype Field = Field(opener: string, skip: nat, closer: string, shape: Shape)

  /**
   * The seven fields, Swim to Total: Swim starts 3 past the ".)" closing the
   * date, Total 3 past "||", the others 2 past "|"; the breaks T1, Lunch and T2
   * end at "m", the others at "h".
   */
  const Layout: seq<Field> := [
    Field(".)", 3, "h", Clock),
    Field("|", 2, "m", Minutes),
    Field("|", 2, "h", Clock),
    Field("|", 2, "m", Minutes),
    Field("|", 2, "m", Minutes),
    Field("|", 2, "h", Clock),
    Field("||", 3, "h", Total)
  ]

  function Opener(k: nat): string
    requires k < FIELDS
  {
    Layout[k].opener
  }

  function Skip(k: nat): nat
    requires k < FIELDS
  {
    Layout[k].skip
  }

  function Closer(k: nat): string
    requires k < FIELDS
  {
    Layout[k].closer
  }

  function ShapeOf(k: nat): Shape
    requires k < FIELDS
  {
    Layout[k].shape
  }

  /**
   * The positions `(j1, j2)` of field `k` of a layout: `j1 = line.find(opener, prev) + skip`,
   * `j2 = line.find(closer, j1)`, where `prev` is 0 for the first field and the
   * previous field's `j2` otherwise.
   */
  function Locate(fields: seq<Field>, line: string, k: nat): (span: (int, int))
    requires k < |fields|
    ensures span.0 >= fields[k].skip - 1
    ensures span.1 == -1 || span.0 <= span.1
    decreases k
  {
    var from := if k == 0 then 0 else Locate(fields, line, k - 1).1;
    var j1 := Find(line, fields[k].opener, from) + fields[k].skip;
    (j1, Find(line, fields[k].closer, j1))
  }

  /** The positions of field `k` of a results line. `j1` is never negative. */
  function Span(line: string, k: nat): (span: (int, int))
    requires k < FIELDS
    ensures span.0 >= 1
    ensures span.1 == -1 || span.0 <= span.1
  {
    assert Layout[k].skip >= 2;
    Locate(Layout, line, k)
  }

  /** A Clock field: an uncaught IndexError when `j1` is outside the line, otherwise a cell. */
  function ClockValue(line: string, j1: int, j2: int): (r: Result<Cell, Error>)
    ensures r.Failure? <==> !(-|line| <= j1 < |line|)
    ensures r.Failure? ==> r.error == LineIndexError(j1)
  {
    match CharAt(line, j1)
    case None => Failure(LineIndexError(j1))
    case Some(c) =>
      match ParseInt([c])
      case None => Success(Missing)
      case Some(h) =>
        match ParseInt(Slice(line, j1 + 2, j2))
        case None => Success(Missing)
        case Some(m) => Success(Val(h as real + m as real / 60.0))
  }

  /**
   * A Minutes field; slicing never raises, so this always gives a cell: digits
   * read as that many minutes, in hours, and a text without a digit as missing.
   */
  function MinutesValue(line: string, j1: int, j2: int): (c: Cell)
    ensures IsDecimal(Slice(line, j1, j2)) ==> c == Val(DigitsValue(Slice(line, j1, j2)) as real / 60.0)
    ensures NoDigit(Slice(line, j1, j2)) ==> c == Missing
  {
    ParseIntCases(Slice(line, j1, j2));
    match ParseInt(Slice(line, j1, j2))
    case None => Missing
    case Some(m) => Val(m as real / 60.0)
  }

  /**
   * The Total field; slicing never raises, so this always gives a cell: two
   * characters of hours and, from the fourth character on, the minutes; digits
   * in both read as that time, and a part without a digit makes it missing.
   */
  function TotalValue(line: string, j1: int, j2: int): (c: Cell)
    ensures IsDecimal(Slice(line, j1, j1 + 2)) && IsDecimal(Slice(line, j1 + 3, j2)) ==>
              c == Val(DigitsValue(Slice(line, j1, j1 + 2)) as real + DigitsValue(Slice(line, j1 + 3, j2)) as real / 60.0)
    ensures NoDigit(Slice(line, j1, j1 + 2)) || NoDigit(Slice(line, j1 + 3, j2)) ==> c == Missing
  {
    ParseIntCases(Slice(line, j1, j1 + 2));
    ParseIntCases(Slice(line, j1 + 3, j2));
    match ParseInt(Slice(line, j1, j1 + 2))
    case None => Missing
    case Some(h) =>
      match ParseInt(Slice(line, j1 + 3, j2))
      case None => Missing
      case Some(m) => Val(h as real + m as real / 60.0)
  }

  /**
   * The cell of field `k`. The only failure is the uncaught IndexError of a Clock
   * field whose `j1` is past the end of the line.
   */
  function Extract(line: string, k: nat): (r: Result<Cell, Error>)
    requires k < FIELDS
    ensures r.Failure? <==> ShapeOf(k) == Clock && Span(line, k).0 >= |line|
    ensures r.Failure? ==> r.error == LineIndexError(Span(line, k).0)
  {
    var (j1, j2) := Span(line, k);
    match ShapeOf(k)
    case Clock => ClockValue(line, j1, j2)
    case Minutes => Success(MinutesValue(line, j1, j2))
    case Total => Success(TotalValue(line, j1, j2))
  }

  /** None of the first `k` fields raises an exception. */
  predicate ExtractsBefore(line: string, k: nat)
    requires k <= FIELDS
  {
    forall f :: 0 <= f < k ==> Extract(line, f).Success?
  }

  /** Field `f` is the first to raise an exception, and it raises `e`. */
  predicate FirstFailure(line: string, f: nat, e: Error)
    requires f < FIELDS
  {
    Extract(line, f) == Failure(e) && ExtractsBefore(line, f)
  }

  /** `cells` are the cells of the first `k` fields, in order. */
  predicate CellsOf(line: string, cells: seq<Cell>, k: nat)
    requires k <= FIELDS
  {
    |cells| == k && forall f :: 0 <= f < k ==> Extract(line, f) == Success(cells[f])
  }

  /**
   * Runs through a sequence of outcomes in order: the values of all of them, or
   * the error of the first that failed (the first exception ends the script's
   * block, so later fields are never reached).
   */
  function Collect<T, E>(rs: seq<Result<T, E>>): (r: Result<seq<T>, E>)
    ensures r.Success? ==> |r.value| == |rs|
  {
    if |rs| == 0 then Success([])
    else
      match rs[0]
      case Failure(e) => Failure(e)
      case Success(v) =>
        match Collect(rs[1..])
        case Failure(e) => Failure(e)
        case Success(vs) => Success([v] + vs)
  }

  /** Collecting succeeds exactly when every outcome does, and then gives their values in order. */
  lemma {:induction false} CollectSucceeds<T, E>(rs: seq<Result<T, E>>)
    ensures Collect(rs).Success? <==> forall f :: 0 <= f < |rs| ==> rs[f].Success?
    ensures Collect(rs).Success? ==> forall f :: 0 <= f < |rs| ==> rs[f] == Success(Collect(rs).value[f])
  {
    if |rs| > 0 {
      CollectSucceeds(rs[1..]);
      assert forall f :: 1 <= f < |rs| ==> rs[f] == rs[1..][f - 1];
    }
  }

  /** When collecting fails, its error is that of the first outcome to fail. */
  lemma {:induction false} CollectFails<T, E>(rs: seq<Result<T, E>>)
    ensures Collect(rs).Failure? ==>
              exists f :: 0 <= f < |rs| && rs[f] == Failure(Collect(rs).error) &&
                          forall g :: 0 <= g < f ==> rs[g].Success?
  {
    if |rs| > 0 && rs[0].Success? && Collect(rs).Failure? {
      CollectFails(rs[1..]);
      var f :| 0 <= f < |rs| - 1 && rs[1..][f] == Failure(Collect(rs).error) &&
                forall g :: 0 <= g < f ==> rs[1..][g].Success?;
      assert forall g :: 0 <= g < f + 1 ==> rs[g].Success? by {
        forall g | 0 <= g < f + 1 ensures rs[g].Success? {
          if g > 0 { assert rs[g] == rs[1..][g - 1]; }
        }
      }
    }
  }

  /** If outcome `k` is the first to fail, collecting fails with its error. */
  lemma {:induction false} CollectFailsAt<T, E>(rs: seq<Result<T, E>>, k: nat, e: E)
    requires k < |rs| && rs[k] == Failure(e) && forall g :: 0 <= g < k ==> rs[g].Success?
    ensures Collect(rs) == Failure(e)
  {
    if k > 0 {
      CollectFailsAt(rs[1..], k - 1, e);
    }
  }

  /** One more outcome: collecting goes on only if everything so far succeeded and the new outcome does too. */
  lemma {:induction false} CollectAppend<T, E>(rs: seq<Result<T, E>>, x: Result<T, E>)
    ensures Collect(rs + [x]) ==
              match Collect(rs)
              case Failure(e) => Failure(e)
              case Success(vs) =>
                match x
                case Failure(e) => Failure(e)
                case Success(v) => Success(vs + [v])
  {
    if |rs| == 0 {
      assert rs + [x] == [x];
      if x.Success? { assert [x.value] + [] == [] + [x.value]; }
    } else {
      CollectAppend(rs[1..], x);
      assert (rs + [x])[0] == rs[0];
      assert (rs + [x])[1..] == rs[1..] + [x];
      if rs[0].Success? && Collect(rs[1..]).Success? && x.Success? {
        var v0, vs := rs[0].value, Collect(rs[1..]).value;
        assert [v0] + (vs + [x.value]) == ([v0] + vs) + [x.value];
      }
    }
  }

  /** Once collecting has failed, later outcomes change nothing. */
  lemma {:induction false} CollectStops<T, E>(rs: seq<Result<T, E>>, more: seq<Result<T, E>>)
    requires Collect(rs).Failure?
    ensures Collect(rs + more) == Collect(rs)
  {
    if rs[0].Success? {
      CollectStops(rs[1..], more);
      assert (rs + more)[1..] == rs[1..] + more;
    }
  }

  /** The outcomes of the seven fields of a line, in the script's order. */
  function Outcomes(line: string): (rs: seq<Result<Cell, Error>>)
    ensures |rs| == FIELDS
    ensures forall f :: 0 <= f < FIELDS ==> rs[f] == Extract(line, f)
  {
    seq(FIELDS, f requires 0 <= f < FIELDS => Extract(line, f))
  }

  /**
   * The row a race line contributes to the table: the seven measured cells, then
   * Bike1 and Bike2, each half of Bike, or the exception of the first field that
   * raises one.
   */
  function ParseFields(line: string): (r: Result<seq<Cell>, Error>)
    ensures r.Success? ==> |r.value| == COLUMNS
  {
    match Collect(Outcomes(line))
    case Failure(e) => Failure(e)
    case Success(cells) => Success(cells + [Half(cells[BIKE]), Half(cells[BIKE])])
  }

  /**
   * A race line parses exactly when none of its fields raises; its cells are then
   * those of its seven fields followed by the two halves of Bike. Otherwise it
   * fails only with the IndexError of a Clock field that starts past the end of
   * the line, every field before which reads without an exception.
   */
  lemma ParseFieldsMeaning(line: string)
    ensures ParseFields(line).Success? <==> ExtractsBefore(line, FIELDS)
    ensures ParseFields(line).Success? ==>
              var row := ParseFields(line).value;
              && (forall f :: 0 <= f < FIELDS ==> Extract(line, f) == Success(row[f]))
              && row[BIKE1] == Half(row[BIKE]) && row[BIKE2] == Half(row[BIKE])
    ensures ParseFields(line).Failure? ==>
              exists f :: 0 <= f < FIELDS && ShapeOf(f) == Clock &&
                          ParseFields(line).error == LineIndexError(Span(line, f).0) &&
                          Span(line, f).0 >= |line| && ExtractsBefore(line, f)
  {
    var rs := Outcomes(line);
    CollectSucceeds(rs);
    CollectFails(rs);
    if Collect(rs).Failure? {
      var f :| 0 <= f < FIELDS && rs[f] == Failure(Collect(rs).error) && forall g :: 0 <= g < f ==> rs[g].Success?;
      assert FirstFailure(line, f, Collect(rs).error);
    }
  }

  /** Bike1 and Bike2 are missing exactly when Bike is, and otherwise add up to Bike. */
  lemma BikeHalves(line: string)
    requires ParseFields(line).Success?
    ensures var row := ParseFields(line).value;
            (row[BIKE1].Missing? <==> row[BIKE].Missing?) &&
            (row[BIKE2].Missing? <==> row[BIKE].Missing?) &&
            (row[BIKE].Val? ==> row[BIKE1].hours + row[BIKE2].hours == row[BIKE].hours)
  {
    ParseFieldsMeaning(line);
  }

  /** A line whose seven fields give `cells` parses into those cells followed by the two halves of Bike. */
  lemma ParseFieldsOfCells(line: string, cells: seq<Cell>)
    requires CellsOf(line, cells, FIELDS)
    ensures ParseFields(line) == Success(cells + [Half(cells[BIKE]), Half(cells[BIKE])])
  {
    var rs := Outcomes(line);
    CollectSucceeds(rs);
    assert Collect(rs).Success?;
    assert Collect(rs).value == cells;
  }

  /**
   * The chained search: field `k` starts `Skip(k)` past the next `Opener(k)` after
   * where the previous field ended (the start of the line for Swim), and ends at the
   * next `Closer(k)` after its start; its cell is read from there by its shape.
   */
  lemma FieldStep(line: string, k: nat, from: int, j1: int, j2: int)
    requires k < FIELDS && from == (if k == 0 then 0 else Span(line, k - 1).1)
    requires j1 == Find(line, Opener(k), from) + Skip(k) && j2 == Find(line, Closer(k), j1)
    ensures Span(line, k) == (j1, j2)
    ensures Extract(line, k) ==
              match ShapeOf(k)
              case Clock => ClockValue(line, j1, j2)
              case Minutes => Success(MinutesValue(line, j1, j2))
              case Total => Success(TotalValue(line, j1, j2))
  {
    SpanStep(line, k, from, j1, j2);
    ExtractAt(line, k, j1, j2);
  }

  /** The scan for field `k` goes on from where field `k - 1` ended. */
  lemma SpanStep(line: string, k: nat, from: int, j1: int, j2: int)
    requires k < FIELDS && from == (if k == 0 then 0 else Span(line, k - 1).1)
    requires j1 == Find(line, Opener(k), from) + Skip(k) && j2 == Find(line, Closer(k), j1)
    ensures Span(line, k) == (j1, j2)
  {
    LocateStep(Layout, line, k, from, j1, j2);
  }

  /** The scan for field `k` of any layout goes on from where field `k - 1` ended. */
  lemma LocateStep(fields: seq<Field>, line: string, k: nat, from: int, j1: int, j2: int)
    requires k < |fields| && from == (if k == 0 then 0 else Locate(fields, line, k - 1).1)
    requires j1 == Find(line, fields[k].opener, from) + fields[k].skip && j2 == Find(line, fields[k].closer, j1)
    ensures Locate(fields, line, k) == (j1, j2)
  {
    var span := Locate(fields, line, k);
    assert span.0 == Find(line, fields[k].opener, from) + fields[k].skip;
    assert span.1 == Find(line, fields[k].closer, span.0);
  }

  /** Field `k` is converted from the text its span delimits, as its shape says. */
  lemma ExtractAt(line: string, k: nat, j1: int, j2: int)
    requires k < FIELDS && Span(line, k) == (j1, j2)
    ensures Extract(line, k) ==
              match ShapeOf(k)
              case Clock => ClockValue(line, j1, j2)
              case Minutes => Success(MinutesValue(line, j1, j2))
              case Total => Success(TotalValue(line, j1, j2))
  {
  }

  /** One more field read without an exception extends the cells read so far. */
  lemma CellsStep(line: string, cells: seq<Cell>, k: nat, c: Cell)
    requires k < FIELDS && CellsOf(line, cells, k) && Extract(line, k) == Success(c)
    ensures CellsOf(line, cells + [c], k + 1)
  {
    assert forall f :: 0 <= f < k ==> (cells + [c])[f] == cells[f];
  }

  /** The first field to raise after fields that all read decides the exception of the line. */
  lemma FailsAfterCells(line: string, cells: seq<Cell>, k: nat, e: Error)
    requires k < FIELDS && CellsOf(line, cells, k) && Extract(line, k) == Failure(e)
    ensures ParseFields(line) == Failure(e)
  {
    assert FirstFailure(line, k, e);
    ParseFieldsFailsAt(line, k, e);
  }

  /** The exception a line raises is that of its first field to raise one. */
  lemma ParseFieldsFailsAt(line: string, k: nat, e: Error)
    requires k < FIELDS && FirstFailure(line, k, e)
    ensures ParseFields(line) == Failure(e)
  {
    CollectFailsAt(Outcomes(line), k, e);
  }
}
