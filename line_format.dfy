/**
 * Results lines as they are written in the results file, and what the scan
 * reads back from them: a line such as
 *
 *   1. LD (09.05.) 1:15h | 3m | 6:30h | 12m | 4m | 4:30h || 12:31h
 *
 * holds Swim, Bike and Run as one hour digit, ':' and minutes; T1, Lunch and T2
 * as minutes; and Total as two hour digits, ':' and minutes.
 */
module LineFormat {
  import opened Wrappers
  import opened PyText
  import opened RaceLine
  import opened LineLayout

  /** A time as written: whole hours and minutes. */
  datatype Time = Time(hours: nat, minutes: nat)

  /** What a field holds: a time, or nothing at all (the text between the delimiters is empty). */
  datatype Entry = Written(time: Time) | Blank

  /** The cell a time stands for, in hours. */
  function Hours(t: Time): Cell
  {
    Val(t.hours as real + t.minutes as real / 60.0)
  }

  /** The time can be written in the field's format: one hour digit, no hours, or two hour digits. */
  predicate Fits(shape: Shape, t: Time)
  {
    match shape
    case Clock => t.hours < 10
    case Minutes => t.hours == 0
    case Total => t.hours < 100
  }

  /** How a time is written in a field of the given shape; no delimiter of the layout occurs in it. */
  function FieldText(shape: Shape, t: Time): (text: string)
    requires Fits(shape, t)
    ensures DelimiterFree(text)
  {
    var m := NatToString(t.minutes);
    match shape
    case Clock => [DigitChar(t.hours)] + ":" + m
    case Minutes => m
    case Total => Pad2(t.hours) + ":" + m
  }

  /** Every written time fits its field. */
  predicate Writable(entries: seq<Entry>)
  {
    |entries| == FIELDS && forall f :: 0 <= f < FIELDS ==> entries[f].Written? ==> Fits(ShapeOf(f), entries[f].time)
  }

  /** The text of field `f`: the written time, or nothing. */
  function EntryText(entries: seq<Entry>, f: nat): (text: string)
    requires Writable(entries) && f < FIELDS
    ensures DelimiterFree(text)
  {
    match entries[f]
    case Written(t) => FieldText(ShapeOf(f), t)
    case Blank => ""
  }

  /** The texts of the seven fields, Swim to Total. */
  function Texts(entries: seq<Entry>): (texts: seq<string>)
    requires Writable(entries)
    ensures |texts| == FIELDS && forall f :: 0 <= f < FIELDS ==> DelimiterFree(texts[f])
  {
    seq(FIELDS, f requires 0 <= f < FIELDS => EntryText(entries, f))
  }

  /** A results line: `prefix`, then ".) " and the seven fields with their delimiters. */
  function FormatLine(prefix: string, entries: seq<Entry>): string
    requires Writable(entries)
  {
    Compose(Layout, prefix, Texts(entries), FIELDS)
  }

  /** The cell an entry stands for: its time, or missing when the field is blank. */
  function EntryCell(e: Entry): Cell
  {
    match e
    case Written(t) => Hours(t)
    case Blank => Missing
  }

  /** The table row a results line stands for: its seven cells, then Bike split in two halves. */
  function RowOf(entries: seq<Entry>): (row: seq<Cell>)
    requires |entries| == FIELDS
    ensures |row| == COLUMNS
  {
    var cells := seq(FIELDS, f requires 0 <= f < FIELDS => EntryCell(entries[f]));
    cells + [Half(cells[BIKE]), Half(cells[BIKE])]
  }

  // ---------------------------------------------------------------------------
  // What any field text reads as
  // ---------------------------------------------------------------------------

  /** `text[n:]`: empty when the text is shorter than `n`. */
  function From(text: string, n: nat): string
  {
    if |text| < n then "" else text[n..]
  }

  /** Hours and minutes that both converted, or a missing cell when either raised ValueError. */
  function HoursAndMinutes(h: Option<int>, m: Option<int>): Cell
  {
    if h.Some? && m.Some? then Val(h.value as real + m.value as real / 60.0) else Missing
  }

  /**
   * The cell a field reads as, from its own text alone, when the text stands where
   * the scan finds it and is followed by the field's closer. A Clock field takes
   * one hour character and the minutes from the third character on; for an empty
   * text the hour character is the closer itself. A Minutes field takes the whole
   * text. The Total field takes two hour characters and the minutes from the
   * fourth character on; a text shorter than two characters lends the closer to
   * the hours, and `int()` rejects it.
   */
  function TextCell(shape: Shape, text: string): Cell
  {
    match shape
    case Clock => if text == [] then Missing else HoursAndMinutes(ParseInt([text[0]]), ParseInt(From(text, 2)))
    case Minutes => if ParseInt(text).Some? then Val(ParseInt(text).value as real / 60.0) else Missing
    case Total => if |text| < 2 then Missing else HoursAndMinutes(ParseInt(text[..2]), ParseInt(From(text, 3)))
  }

  /** A Clock field whose text `line[j1..j2]` is followed by a non-digit reads as its text does. */
  lemma ClockOfText(line: string, j1: int, j2: int, text: string)
    requires 0 <= j1 <= j2 < |line| && line[j1..j2] == text && !IsDigit(line[j2])
    ensures ClockValue(line, j1, j2) == Success(TextCell(Clock, text))
  {
    if text == [] {
      ParseIntOfChar(line[j1]);
    } else {
      assert line[j1] == text[0];
      assert Slice(line, j1 + 2, j2) == From(text, 2);
    }
  }

  /** A Minutes field reads as its text does. */
  lemma MinutesOfText(line: string, j1: int, j2: int, text: string)
    requires 0 <= j1 <= j2 <= |line| && line[j1..j2] == text
    ensures MinutesValue(line, j1, j2) == TextCell(Minutes, text)
  {
  }

  /** The Total field whose text `line[j1..j2]` is followed by a character `int()` rejects reads as its text does. */
  lemma TotalOfText(line: string, j1: int, j2: int, text: string)
    requires 0 <= j1 <= j2 < |line| && line[j1..j2] == text
    requires !IsSpace(line[j2]) && !IsDigit(line[j2]) && line[j2] != '+' && line[j2] != '-'
    ensures TotalValue(line, j1, j2) == TextCell(Total, text)
  {
    var hours := Slice(line, j1, j1 + 2);
    if |text| < 2 {
      assert hours[|text|] == line[j2];
      ParseIntRejectsForeignChar(hours, |text|);
    } else {
      assert hours == text[..2];
      assert Slice(line, j1 + 3, j2) == From(text, 3);
    }
  }

  /** `line` begins with `prefix`, ".) " and the seven fields holding `texts`, none of which holds a delimiter. */
  predicate Composed(prefix: string, texts: seq<string>, line: string)
  {
    && ')' !in prefix
    && |texts| == FIELDS && (forall f :: 0 <= f < FIELDS ==> DelimiterFree(texts[f]))
    && StartsWith(line, Compose(Layout, prefix, texts, FIELDS))
  }

  /** Field `k` of a laid-out line spans exactly its text. */
  lemma SpanOfComposed(prefix: string, texts: seq<string>, line: string, k: nat)
    requires Composed(prefix, texts, line) && k < FIELDS
    ensures Span(line, k).0 == |Compose(Layout, prefix, texts, k)|
    ensures Span(line, k).1 == |Compose(Layout, prefix, texts, k)| + |texts[k]|
  {
    LayoutScannable();
    LocateComposed(Layout, prefix, texts, k, line);
  }

  /** The text of field `k` of a laid-out line stands right after `Compose(.., k)`, and its closer right after it. */
  lemma TextOfComposed(prefix: string, texts: seq<string>, line: string, k: nat, j1: int, j2: int)
    requires Composed(prefix, texts, line) && k < FIELDS
    requires j1 == |Compose(Layout, prefix, texts, k)| && j2 == j1 + |texts[k]|
    ensures 0 <= j1 <= j2 < |line| && line[j1..j2] == texts[k]
    ensures line[j2] == 'h' || line[j2] == 'm'
  {
    LayoutScannable();
    assert Layout[k].closer == "h" || Layout[k].closer == "m";
    TextAt(Layout, prefix, texts, k, line, j1, j2);
    CloserAt(Layout, prefix, texts, k, line, j1, j2);
  }

  /** Field `k`, spanning `text` and followed by a closer, reads as its text does. */
  lemma ExtractOfText(line: string, k: nat, j1: int, j2: int, text: string)
    requires k < FIELDS && Span(line, k).0 == j1 && Span(line, k).1 == j2
    requires 0 <= j1 <= j2 < |line| && line[j1..j2] == text && (line[j2] == 'h' || line[j2] == 'm')
    ensures Extract(line, k) == Success(TextCell(ShapeOf(k), text))
  {
    ExtractAt(line, k, j1, j2);
    match ShapeOf(k)
    case Clock => ClockOfText(line, j1, j2, text);
    case Minutes => MinutesOfText(line, j1, j2, text);
    case Total => TotalOfText(line, j1, j2, text);
  }

  /**
   * On a line laid out as the results file writes it, whatever its field texts
   * hold other than '|', 'h' or 'm', after a prefix without ')', and whatever
   * follows its Total field, field `k` never raises and gives the cell its own
   * text reads as.
   */
  lemma ExtractOfComposed(prefix: string, texts: seq<string>, line: string, k: nat)
    requires Composed(prefix, texts, line) && k < FIELDS
    ensures Extract(line, k) == Success(TextCell(ShapeOf(k), texts[k]))
  {
    var j1 := |Compose(Layout, prefix, texts, k)|;
    var j2 := j1 + |texts[k]|;
    SpanOfComposed(prefix, texts, line, k);
    TextOfComposed(prefix, texts, line, k, j1, j2);
    ExtractOfText(line, k, j1, j2, texts[k]);
  }

  /** The row of a line holding `texts`: the cell each text reads as, then Bike split in two halves. */
  function TextRow(texts: seq<string>): (row: seq<Cell>)
    requires |texts| == FIELDS
    ensures |row| == COLUMNS
  {
    var cells := seq(FIELDS, f requires 0 <= f < FIELDS => TextCell(ShapeOf(f), texts[f]));
    cells + [Half(cells[BIKE]), Half(cells[BIKE])]
  }

  /**
   * Lenient reading: a line laid out as the results file writes it parses,
   * whatever its field texts hold other than '|', 'h' or 'm', after a prefix
   * without ')', and whatever follows it, into the cells its texts read as; a text `int()` rejects gives a missing cell instead of ending
   * the script.
   */
  lemma ParseComposed(prefix: string, texts: seq<string>, line: string)
    requires Composed(prefix, texts, line)
    ensures ParseFields(line) == Success(TextRow(texts))
  {
    var cells := seq(FIELDS, f requires 0 <= f < FIELDS => TextCell(ShapeOf(f), texts[f]));
    forall f | 0 <= f < FIELDS
      ensures Extract(line, f) == Success(cells[f])
    {
      ExtractOfComposed(prefix, texts, line, f);
    }
    ParseFieldsOfCells(line, cells);
  }

  /**
   * A bad field spoils only its own cell: replacing the text of field `f` by any
   * other delimiter-free text changes no cell of the row but `f`'s, and Bike1 and
   * Bike2 when `f` is Bike; the new cell is what the new text reads as.
   */
  lemma OnlyItsOwnCell(prefix: string, texts: seq<string>, f: nat, text: string, line: string, line': string)
    requires Composed(prefix, texts, line) && f < FIELDS && Composed(prefix, texts[f := text], line')
    ensures ParseFields(line).Success? && ParseFields(line').Success?
    ensures ParseFields(line').value[f] == TextCell(ShapeOf(f), text)
    ensures forall c :: 0 <= c < COLUMNS && c != f && !(f == BIKE && (c == BIKE1 || c == BIKE2)) ==>
              ParseFields(line').value[c] == ParseFields(line).value[c]
  {
    ParseComposed(prefix, texts, line);
    ParseComposed(prefix, texts[f := text], line');
  }

  /** A field text without a digit reads as missing, whatever the field's shape. */
  lemma NoDigitIsMissing(shape: Shape, text: string)
    requires NoDigit(text)
    ensures TextCell(shape, text) == Missing
  {
    match shape
    case Clock =>
      if text != [] {
        ParseIntOfChar(text[0]);
      }
    case Minutes =>
      ParseIntNeedsDigit(text);
    case Total =>
      if |text| >= 2 {
        ParseIntNeedsDigit(text[..2]);
      }
  }

  /** On a line laid out as the results file writes it, a field whose text holds no digit gives a missing cell. */
  lemma GarbledFieldIsMissing(prefix: string, texts: seq<string>, line: string, f: nat)
    requires Composed(prefix, texts, line) && f < FIELDS
    requires NoDigit(texts[f])
    ensures ParseFields(line).Success? && ParseFields(line).value[f] == Missing
  {
    ParseComposed(prefix, texts, line);
    NoDigitIsMissing(ShapeOf(f), texts[f]);
  }

  // ---------------------------------------------------------------------------
  // Reading back written times
  // ---------------------------------------------------------------------------

  /** A time written in a field of its shape reads back as that time. */
  lemma ReadsBack(shape: Shape, t: Time)
    requires Fits(shape, t)
    ensures TextCell(shape, FieldText(shape, t)) == Hours(t)
  {
    var text := FieldText(shape, t);
    var m := NatToString(t.minutes);
    ParseIntOfDecimal(m);
    match shape
    case Clock =>
      assert text[0] == DigitChar(t.hours) && From(text, 2) == m;
      ParseIntOfChar(DigitChar(t.hours));
    case Minutes =>
    case Total =>
      assert text[..2] == Pad2(t.hours) && From(text, 3) == m;
      ParseIntOfDecimal(Pad2(t.hours));
  }

  /** The text of a written entry reads as its time, and a blank one as missing. */
  lemma TextCellOfEntry(entries: seq<Entry>, f: nat)
    requires Writable(entries) && f < FIELDS
    ensures TextCell(ShapeOf(f), EntryText(entries, f)) == EntryCell(entries[f])
  {
    match entries[f]
    case Written(t) => ReadsBack(ShapeOf(f), t);
    case Blank => ParseIntRejectsBlank("");
  }

  /** A results line is laid out as the results file writes it, whatever follows it. */
  lemma FormattedIsComposed(prefix: string, entries: seq<Entry>, suffix: string)
    requires ')' !in prefix && Writable(entries)
    ensures Composed(prefix, Texts(entries), FormatLine(prefix, entries) + suffix)
  {
    var w := FormatLine(prefix, entries);
    assert (w + suffix)[..|w|] == w;
  }

  /**
   * Every field of a results line, followed by anything (the line end that
   * `readlines()` keeps, say), reads back as the cell its entry stands for.
   */
  lemma FieldOfFormatted(prefix: string, entries: seq<Entry>, suffix: string, k: nat)
    requires ')' !in prefix && Writable(entries) && k < FIELDS
    ensures Extract(FormatLine(prefix, entries) + suffix, k) == Success(EntryCell(entries[k]))
  {
    FormattedIsComposed(prefix, entries, suffix);
    ExtractOfComposed(prefix, Texts(entries), FormatLine(prefix, entries) + suffix, k);
    TextCellOfEntry(entries, k);
  }

  /**
   * Round trip: a results line, whatever precedes its ".)" other than a ')',
   * and whatever follows its Total field, parses into the row of the entries written in it; a blank
   * field gives a missing cell and leaves every other field as it was written.
   */
  lemma ParseFormatLine(prefix: string, entries: seq<Entry>, suffix: string)
    requires ')' !in prefix && Writable(entries)
    ensures ParseFields(FormatLine(prefix, entries) + suffix) == Success(RowOf(entries))
  {
    var line := FormatLine(prefix, entries) + suffix;
    var cells := seq(FIELDS, f requires 0 <= f < FIELDS => EntryCell(entries[f]));
    forall f | 0 <= f < FIELDS
      ensures Extract(line, f) == Success(cells[f])
    {
      FieldOfFormatted(prefix, entries, suffix, f);
    }
    ParseFieldsOfCells(line, cells);
  }

  /** A Total written with a single hour digit reads as missing: its first two characters take the ':' with them. */
  lemma OneDigitTotalIsMissing(t: Time)
    requires t.hours < 10
    ensures TextCell(Total, FieldText(Clock, t)) == Missing
  {
    var text := FieldText(Clock, t);
    assert text[..2][1] == ':';
    ParseIntRejectsForeignChar(text[..2], 1);
  }

  /**
   * A Clock field holding ten hours or more, written as all its hour digits, ':'
   * and minutes, reads as missing: its minutes are taken from the third character
   * on, which runs into the ':'.
   */
  lemma TenHourClockIsMissing(t: Time)
    requires t.hours >= 10
    ensures TextCell(Clock, NatToString(t.hours) + ":" + NatToString(t.minutes)) == Missing
  {
    var hs := NatToString(t.hours);
    var rest := (hs + ":" + NatToString(t.minutes))[2..];
    assert rest[|hs| - 2] == ':';
    ParseIntRejectsForeignChar(rest, |hs| - 2);
  }

  /** A results line as it appears in the results file. */
  const SampleLine := "1. LD (09.05.) 1:15h | 3m | 6:30h | 12m | 4m | 4:30h || 12:31h"

  /** The entries of the sample line, Swim to Total. */
  const SampleEntries := [Written(Time(1, 15)), Written(Time(0, 3)), Written(Time(6, 30)), Written(Time(0, 12)),
                          Written(Time(0, 4)), Written(Time(4, 30)), Written(Time(12, 31))]

  /** What stands before the sample line's first ".)". */
  const SamplePrefix := "1. LD (09.05"

  /** The texts of the sample line's fields. */
  const SampleTexts := ["1:15", "3", "6:30", "12", "4", "4:30", "12:31"]

  /** The decimal renderings the sample line uses. */
  lemma SampleNumbers()
    ensures NatToString(3) == "3" && NatToString(4) == "4" && NatToString(12) == "12"
    ensures NatToString(15) == "15" && NatToString(30) == "30" && NatToString(31) == "31"
    ensures Pad2(12) == "12"
  {
  }

  /** The sample times are written as the sample texts. */
  lemma SampleTextsOf()
    ensures Writable(SampleEntries) && Texts(SampleEntries) == SampleTexts
  {
    SampleNumbers();
    var texts := Texts(SampleEntries);
    assert texts[0] == "1:15" && texts[1] == "3" && texts[2] == "6:30";
    assert texts[3] == "12" && texts[4] == "4" && texts[5] == "4:30" && texts[6] == "12:31";
  }

  /** The sample line up to its Lunch field. */
  lemma SampleHead()
    ensures Compose(Layout, SamplePrefix, SampleTexts, 3) == "1. LD (09.05.) 1:15h | 3m | 6:30h | "
  {
    assert Compose(Layout, SamplePrefix, SampleTexts, 1) == "1. LD (09.05.) 1:15h | ";
    assert Compose(Layout, SamplePrefix, SampleTexts, 2) == "1. LD (09.05.) 1:15h | 3m | ";
  }

  /** The sample line up to its Run field. */
  lemma SampleMiddle()
    ensures Compose(Layout, SamplePrefix, SampleTexts, 5) == "1. LD (09.05.) 1:15h | 3m | 6:30h | 12m | 4m | "
  {
    SampleHead();
    assert Compose(Layout, SamplePrefix, SampleTexts, 4) == "1. LD (09.05.) 1:15h | 3m | 6:30h | 12m | ";
  }

  /** The sample line up to its Total field. */
  lemma SampleTail()
    ensures Compose(Layout, SamplePrefix, SampleTexts, 6) == "1. LD (09.05.) 1:15h | 3m | 6:30h | 12m | 4m | 4:30h || "
  {
    SampleMiddle();
  }

  /** The sample line is composed of its prefix and its texts. */
  lemma SampleComposed()
    ensures Compose(Layout, SamplePrefix, SampleTexts, FIELDS) == SampleLine
  {
    SampleTail();
  }

  /** The sample line is the results line of the sample times. */
  lemma SampleLineFormatted()
    ensures Writable(SampleEntries) && FormatLine(SamplePrefix, SampleEntries) == SampleLine
  {
    SampleTextsOf();
    SampleComposed();
  }

  /**
   * The row of the sample line: Swim 1:15, T1 3 minutes, Bike 6:30, Lunch 12 minutes,
   * T2 4 minutes, Run 4:30 and Total 12:31, with Bike split into two halves of 3:15.
   */
  lemma SampleRow()
    ensures RowOf(SampleEntries) == [Val(1.25), Val(0.05), Val(6.5), Val(0.2), Val(4.0 / 60.0),
                                   Val(4.5), Val(12.0 + 31.0 / 60.0), Val(3.25), Val(3.25)]
  {
  }

  /** The sample line is laid out in the results format. */
  lemma SampleIsComposed()
    ensures Composed(SamplePrefix, SampleTexts, SampleLine)
  {
    SampleLineFormatted();
    SampleTextsOf();
    FormattedComposed(SamplePrefix, SampleEntries, SampleTexts, SampleLine);
  }

  /** A results line with nothing after it is laid out from its entries' texts. */
  lemma FormattedComposed(prefix: string, entries: seq<Entry>, texts: seq<string>, line: string)
    requires ')' !in prefix && Writable(entries) && Texts(entries) == texts && FormatLine(prefix, entries) == line
    ensures Composed(prefix, texts, line)
  {
    FormattedIsComposed(prefix, entries, "");
    assert line + "" == line;
  }

  /** The sample line parses into the sample's row. */
  lemma SampleParses()
    ensures ParseFields(SampleLine) == Success(RowOf(SampleEntries))
  {
    SampleLineFormatted();
    FormattedParses(SamplePrefix, SampleEntries, SampleLine);
  }

  /** A results line with nothing after it parses into its entries' row. */
  lemma FormattedParses(prefix: string, entries: seq<Entry>, line: string)
    requires ')' !in prefix && Writable(entries) && FormatLine(prefix, entries) == line
    ensures ParseFields(line) == Success(RowOf(entries))
  {
    ParseFormatLine(prefix, entries, "");
    assert line + "" == line;
  }

  /** Replacing one field text of a laid-out line by another delimiter-free text lays out a line again. */
  lemma ReplacedIsComposed(prefix: string, texts: seq<string>, line: string, f: nat, text: string)
    requires Composed(prefix, texts, line) && f < FIELDS && DelimiterFree(text)
    ensures Composed(prefix, texts[f := text], Compose(Layout, prefix, texts[f := text], FIELDS))
  {
    StartsWithSelf(Compose(Layout, prefix, texts[f := text], FIELDS));
  }

  /**
   * Decimal minutes are passed over by the delimiter search, but they are not an
   * integer, so such a Minutes field reads as missing.
   */
  lemma DecimalMinutesIsMissing()
    ensures DelimiterFree("3.5") && TextCell(Minutes, "3.5") == Missing
  {
    var t := "3.5";
    assert t[0] == '3' && t[1] == '.' && t[2] == '5';
    ParseIntRejectsForeignChar("3.5", 1);
  }

  /**
   * The sample line with T1 written as decimal minutes, "3.5m": `int()` rejects
   * the '.', so T1 alone is missing and every other cell is the sample's.
   */
  lemma DecimalT1IsIsolated(line: string)
    requires line == Compose(Layout, SamplePrefix, SampleTexts[1 := "3.5"], FIELDS)
    ensures ParseFields(line).Success? && ParseFields(line).value[1] == Missing
    ensures forall c :: 0 <= c < COLUMNS && c != 1 ==> ParseFields(line).value[c] == RowOf(SampleEntries)[c]
  {
    DecimalMinutesIsMissing();
    SampleParses();
    SampleIsComposed();
    ReplacedIsComposed(SamplePrefix, SampleTexts, SampleLine, 1, "3.5");
    assert ShapeOf(1) == Minutes;
    OnlyItsOwnCell(SamplePrefix, SampleTexts, 1, "3.5", SampleLine, line);
  }
}
