/**
 * Lines written in the expected layout: a prefix ending just before ".)", then
 * each field's text followed by its closer, a space, the next field's opener
 * and a space. The scan of the results file reads every field of such a line
 * back from exactly where its text stands.
 */
module LineLayout {
  import opened PyText
  import opened RaceLine

  /**
   * A layout the left-to-right scan reads back: the first opener is ".)", every
   * later one a non-empty run of '|', each skip steps over its opener and one
   * space, and every closer is "h" or "m".
   */
  predicate Scannable(fields: seq<Field>)
  {
    && |fields| > 0
    && fields[0].opener == ".)"
    && (forall k :: 0 <= k < |fields| ==>
          fields[k].skip == |fields[k].opener| + 1 && (fields[k].closer == "h" || fields[k].closer == "m"))
    && (forall k :: 0 < k < |fields| ==>
          |fields[k].opener| > 0 && forall q :: 0 <= q < |fields[k].opener| ==> fields[k].opener[q] == '|')
  }

  lemma LayoutScannable()
    ensures Scannable(Layout)
  {
  }

  /** What stands between field `k` and field `k + 1`: its closer, a space, the next opener, a space. */
  function Separator(fields: seq<Field>, k: nat): string
    requires k < |fields|
  {
    if k + 1 < |fields| then fields[k].closer + " " + fields[k + 1].opener + " "
    else fields[k].closer
  }

  /**
   * A field text the delimiter search passes over: no '|', 'h' or 'm' in it.
   * The ".)" opener is searched for only once, from the start of the line, so
   * a '.' or ')' in a field text is passed over as well.
   */
  predicate DelimiterFree(t: string)
  {
    forall q :: 0 <= q < |t| ==> t[q] != '|' && t[q] != 'h' && t[q] != 'm'
  }

  /**
   * The line up to the text of field `k`: the prefix, the first opener and a
   * space, then the texts of fields `0..k-1`, each followed by its separator.
   */
  function Compose(fields: seq<Field>, prefix: string, texts: seq<string>, k: nat): string
    requires 0 < |fields| && k <= |texts| && k <= |fields|
  {
    if k == 0 then prefix + fields[0].opener + " "
    else Compose(fields, prefix, texts, k - 1) + texts[k - 1] + Separator(fields, k - 1)
  }

  /** `line` begins with `w`. */
  predicate StartsWith(line: string, w: string)
  {
    |w| <= |line| && line[..|w|] == w
  }

  lemma StartsWithTrans(line: string, w: string, v: string)
    requires StartsWith(line, w) && StartsWith(w, v)
    ensures StartsWith(line, v)
  {
    assert line[..|v|] == line[..|w|][..|v|];
  }

  lemma StartsWithSelf(w: string)
    ensures StartsWith(w, w)
  {
    assert w[..|w|] == w;
  }

  lemma StartsWithAppend(w: string, t: string, u: string)
    ensures StartsWith(w + t + u, w)
  {
    assert (w + t + u)[..|w|] == w;
  }

  lemma {:induction false} ComposeGrows(fields: seq<Field>, prefix: string, texts: seq<string>, k: nat, m: nat)
    requires 0 < |fields| && k <= m <= |texts| && m <= |fields|
    ensures StartsWith(Compose(fields, prefix, texts, m), Compose(fields, prefix, texts, k))
    decreases m
  {
    var w := Compose(fields, prefix, texts, k);
    if k < m {
      ComposeGrows(fields, prefix, texts, k, m - 1);
      var shorter := Compose(fields, prefix, texts, m - 1);
      StartsWithAppend(shorter, texts[m - 1], Separator(fields, m - 1));
      StartsWithTrans(Compose(fields, prefix, texts, m), shorter, w);
    } else {
      StartsWithSelf(w);
    }
  }

  /** The pieces of a prefix of `line` are slices of `line`. */
  lemma PiecesOfPrefix(line: string, head: string, text: string, sep: string)
    requires StartsWith(line, head + text + sep)
    ensures |head| + |text| + |sep| <= |line|
    ensures line[|head|..|head| + |text|] == text
    ensures line[|head| + |text|..|head| + |text| + |sep|] == sep
  {
    var upto := head + text + sep;
    assert line[|head|..|head| + |text|] == upto[|head|..|head| + |text|];
    assert line[|head| + |text|..|upto|] == upto[|head| + |text|..|upto|];
  }

  /** Once a line starts with `Compose(.., m)`, it starts with every shorter composition too. */
  lemma ComposedPrefix(fields: seq<Field>, prefix: string, texts: seq<string>, k: nat, m: nat, line: string)
    requires 0 < |fields| && k <= m <= |texts| && m <= |fields|
    requires StartsWith(line, Compose(fields, prefix, texts, m))
    ensures StartsWith(line, Compose(fields, prefix, texts, k))
  {
    ComposeGrows(fields, prefix, texts, k, m);
    StartsWithTrans(line, Compose(fields, prefix, texts, m), Compose(fields, prefix, texts, k));
  }

  /** In a composed line, field `k`'s text stands right after `Compose(.., k)`, followed by its separator. */
  lemma PieceAt(fields: seq<Field>, prefix: string, texts: seq<string>, k: nat, line: string)
    requires |texts| == |fields| && k < |fields|
    requires StartsWith(line, Compose(fields, prefix, texts, k + 1))
    ensures var head, sep := Compose(fields, prefix, texts, k), Separator(fields, k);
            && |head| + |texts[k]| + |sep| <= |line|
            && line[|head|..|head| + |texts[k]|] == texts[k]
            && line[|head| + |texts[k]|..|head| + |texts[k]| + |sep|] == sep
  {
    PiecesOfPrefix(line, Compose(fields, prefix, texts, k), texts[k], Separator(fields, k));
  }

  /** In a composed line, field `k`'s text stands at `(j1, j2)`. */
  lemma TextAt(fields: seq<Field>, prefix: string, texts: seq<string>, k: nat, line: string, j1: int, j2: int)
    requires |texts| == |fields| && k < |fields|
    requires StartsWith(line, Compose(fields, prefix, texts, |fields|))
    requires j1 == |Compose(fields, prefix, texts, k)| && j2 == j1 + |texts[k]|
    ensures 0 <= j1 <= j2 && j2 + |Separator(fields, k)| <= |line| && line[j1..j2] == texts[k]
    ensures line[j2..j2 + |Separator(fields, k)|] == Separator(fields, k)
  {
    ComposedPrefix(fields, prefix, texts, k + 1, |fields|, line);
    PieceAt(fields, prefix, texts, k, line);
  }

  /** In a composed line, the first character of field `k`'s closer follows its text. */
  lemma CloserAt(fields: seq<Field>, prefix: string, texts: seq<string>, k: nat, line: string, j1: int, j2: int)
    requires |texts| == |fields| && k < |fields| && |fields[k].closer| > 0
    requires StartsWith(line, Compose(fields, prefix, texts, |fields|))
    requires j1 == |Compose(fields, prefix, texts, k)| && j2 == j1 + |texts[k]|
    ensures j2 < |line| && line[j2] == fields[k].closer[0]
  {
    var sep := Separator(fields, k);
    assert |sep| > 0 && sep[0] == fields[k].closer[0];
    TextAt(fields, prefix, texts, k, line, j1, j2);
    PieceStart(line, j2, sep);
  }

  /** A non-empty piece standing at `at` starts with the character at `at`. */
  lemma PieceStart(line: string, at: int, piece: string)
    requires 0 <= at && at + |piece| <= |line| && line[at..at + |piece|] == piece && |piece| > 0
    ensures line[at] == piece[0]
  {
    assert line[at..at + |piece|][0] == line[at];
  }

  /** `Find` returns `r` when `sub` occurs at `r` and nowhere between the start and `r`. */
  lemma FindIs(s: string, sub: string, start: nat, r: int)
    requires start <= r && OccursAt(s, sub, r)
    requires forall q :: start <= q < r ==> !OccursAt(s, sub, q)
    ensures Find(s, sub, start) == r
  {
  }

  /** An occurrence begins with the first character of `sub`. */
  lemma NoOccurrenceWithout(s: string, sub: string, a: nat, b: nat)
    requires |sub| > 0 && b <= |s|
    requires forall q :: a <= q < b ==> s[q] != sub[0]
    ensures forall q :: a <= q < b ==> !OccursAt(s, sub, q)
  {
    forall q | a <= q < b
      ensures !OccursAt(s, sub, q)
    {
      if q + |sub| <= |s| {
        assert s[q..q + |sub|][0] == s[q];
      }
    }
  }

  /**
   * Step `f` of the scan finds field `f` at `(starts[f], ends[f])`, given that the
   * previous field ended at `ends[f - 1]`.
   */
  predicate ScanStep(fields: seq<Field>, line: string, starts: seq<int>, ends: seq<int>, f: nat)
    requires f < |fields| && |starts| == |ends| == |fields|
  {
    && Find(line, fields[f].opener, if f == 0 then 0 else ends[f - 1]) + fields[f].skip == starts[f]
    && Find(line, fields[f].closer, starts[f]) == ends[f]
  }

  /** When every step up to `k` lands on the given positions, so does the whole scan. */
  lemma {:induction false} LocateChain(fields: seq<Field>, line: string, starts: seq<int>, ends: seq<int>, k: nat)
    requires |starts| == |ends| == |fields| && k < |fields|
    requires forall f :: 0 <= f <= k ==> ScanStep(fields, line, starts, ends, f)
    ensures Locate(fields, line, k).0 == starts[k] && Locate(fields, line, k).1 == ends[k]
    decreases k
  {
    assert ScanStep(fields, line, starts, ends, k);
    if k == 0 {
      LocateFirst(fields, line, starts[0], ends[0]);
    } else {
      LocateChain(fields, line, starts, ends, k - 1);
      LocateNext(fields, line, k, ends[k - 1], starts[k], ends[k]);
    }
  }

  /**
   * Every field of a line composed in a scannable layout is located exactly
   * where its text is, provided no ')' precedes the first opener and no text
   * holds a delimiter: field `k` spans from the end of `Compose(.., k)` to the
   * end of its text.
   */
  lemma LocateComposed(fields: seq<Field>, prefix: string, texts: seq<string>, k: nat, line: string)
    requires Scannable(fields) && ')' !in prefix
    requires |texts| == |fields| && forall f :: 0 <= f < |texts| ==> DelimiterFree(texts[f])
    requires StartsWith(line, Compose(fields, prefix, texts, |fields|))
    requires k < |fields|
    ensures Locate(fields, line, k).0 == |Compose(fields, prefix, texts, k)|
    ensures Locate(fields, line, k).1 == |Compose(fields, prefix, texts, k)| + |texts[k]|
  {
    var starts := seq(|fields|, f requires 0 <= f < |fields| => |Compose(fields, prefix, texts, f)|);
    var ends := seq(|fields|, f requires 0 <= f < |fields| => starts[f] + |texts[f]|);
    ComposedSteps(fields, prefix, texts, line, starts, ends);
    LocateChain(fields, line, starts, ends, k);
  }

  /** In a composed line, every step of the scan lands on the start and end of a text. */
  lemma ComposedSteps(fields: seq<Field>, prefix: string, texts: seq<string>, line: string, starts: seq<int>, ends: seq<int>)
    requires Scannable(fields) && ')' !in prefix
    requires |texts| == |fields| && forall f :: 0 <= f < |texts| ==> DelimiterFree(texts[f])
    requires StartsWith(line, Compose(fields, prefix, texts, |fields|))
    requires |starts| == |ends| == |fields|
    requires forall f :: 0 <= f < |fields| ==> starts[f] == |Compose(fields, prefix, texts, f)|
    requires forall f :: 0 <= f < |fields| ==> ends[f] == starts[f] + |texts[f]|
    ensures forall f :: 0 <= f < |fields| ==> ScanStep(fields, line, starts, ends, f)
  {
    forall f | 0 <= f < |fields|
      ensures ScanStep(fields, line, starts, ends, f)
    {
      ComposedPrefix(fields, prefix, texts, f + 1, |fields|, line);
      var from := if f == 0 then 0 else ends[f - 1];
      StartOfComposed(fields, prefix, texts, f, line, from, starts[f]);
      CloserOfComposed(fields, prefix, texts, f, line, starts[f], ends[f]);
    }
  }

  /** The first step of the scan: field 0 is located from the start of the line. */
  lemma LocateFirst(fields: seq<Field>, line: string, j1: int, j2: int)
    requires 0 < |fields|
    requires Find(line, fields[0].opener, 0) + fields[0].skip == j1
    requires Find(line, fields[0].closer, j1) == j2
    ensures Locate(fields, line, 0).0 == j1 && Locate(fields, line, 0).1 == j2
  {
  }

  /** A later step of the scan: field `k` is located from where field `k - 1` ends. */
  lemma LocateNext(fields: seq<Field>, line: string, k: nat, from: int, j1: int, j2: int)
    requires 0 < k < |fields| && Locate(fields, line, k - 1).1 == from
    requires Find(line, fields[k].opener, from) + fields[k].skip == j1
    requires Find(line, fields[k].closer, j1) == j2
    ensures Locate(fields, line, k).0 == j1 && Locate(fields, line, k).1 == j2
  {
  }

  /** The scan for field `k`'s opener, from where the previous field's text ends, lands `skip` short of its text. */
  lemma StartOfComposed(fields: seq<Field>, prefix: string, texts: seq<string>, k: nat, line: string, from: int, j1: int)
    requires Scannable(fields) && (k == 0 ==> ')' !in prefix)
    requires |texts| == |fields| && k < |fields| && StartsWith(line, Compose(fields, prefix, texts, k + 1))
    requires from == if k == 0 then 0 else |Compose(fields, prefix, texts, k - 1)| + |texts[k - 1]|
    requires j1 == |Compose(fields, prefix, texts, k)|
    ensures Find(line, fields[k].opener, from) + fields[k].skip == j1
  {
    ComposedPrefix(fields, prefix, texts, k, k + 1, line);
    if k == 0 {
      OpenerOfComposed(fields, prefix, texts, line);
    } else {
      NextOpenerOfComposed(fields, prefix, texts, k, line, from);
      ComposeStep(fields, prefix, texts, k);
    }
  }

  /** The scan for field `k`'s closer, from the start of its text, stops right after the text. */
  lemma CloserOfComposed(fields: seq<Field>, prefix: string, texts: seq<string>, k: nat, line: string, j1: int, j2: int)
    requires |texts| == |fields| && k < |fields| && DelimiterFree(texts[k])
    requires fields[k].closer == "h" || fields[k].closer == "m"
    requires StartsWith(line, Compose(fields, prefix, texts, k + 1))
    requires j1 == |Compose(fields, prefix, texts, k)| && j2 == j1 + |texts[k]|
    ensures Find(line, fields[k].closer, j1) == j2
  {
    var sep := Separator(fields, k);
    assert |sep| > 0 && sep[0] == fields[k].closer[0];
    PieceAt(fields, prefix, texts, k, line);
    ClosesAt(line, texts[k], j1, fields[k].closer, sep);
  }

  /** The scan for ".)" stops where the prefix ends. */
  lemma OpenerOfComposed(fields: seq<Field>, prefix: string, texts: seq<string>, line: string)
    requires Scannable(fields) && ')' !in prefix
    requires |texts| == |fields| && StartsWith(line, Compose(fields, prefix, texts, 0))
    ensures Find(line, ".)", 0) == |prefix|
  {
    FirstOpener(line, prefix);
  }

  /** In a line that starts with the prefix and ".)", the first ".)" is the one after the prefix. */
  lemma FirstOpener(line: string, prefix: string)
    requires ')' !in prefix && StartsWith(line, prefix + ".) ")
    ensures Find(line, ".)", 0) == |prefix|
  {
    var head := prefix + ".) ";
    assert line[|prefix|..|prefix| + 2] == head[|prefix|..|prefix| + 2] == ".)";
    forall q | 0 <= q < |prefix|
      ensures !OccursAt(line, ".)", q)
    {
      assert line[q + 1] == head[q + 1];
      assert line[q..q + 2][1] == line[q + 1];
      if q + 1 < |prefix| {
        assert head[q + 1] == prefix[q + 1];
      }
    }
    FindIs(line, ".)", 0, |prefix|);
  }

  /** The scan for field `k`'s opener, from the previous field's closer, stops two characters on. */
  lemma NextOpenerOfComposed(fields: seq<Field>, prefix: string, texts: seq<string>, k: nat, line: string, e0: nat)
    requires Scannable(fields)
    requires |texts| == |fields| && 0 < k < |fields| && StartsWith(line, Compose(fields, prefix, texts, k))
    requires e0 == |Compose(fields, prefix, texts, k - 1)| + |texts[k - 1]|
    ensures Find(line, fields[k].opener, e0) == e0 + 2
  {
    OpenerAfterPieces(fields, k, line, Compose(fields, prefix, texts, k - 1), texts[k - 1]);
  }

  /** In a line that starts with `head`, `text` and the separator before field `k`, field `k`'s opener is found two characters past `text`. */
  lemma OpenerAfterPieces(fields: seq<Field>, k: nat, line: string, head: string, text: string)
    requires Scannable(fields) && 0 < k < |fields|
    requires StartsWith(line, head + text + Separator(fields, k - 1))
    ensures Find(line, fields[k].opener, |head| + |text|) == |head| + |text| + 2
  {
    var sep := Separator(fields, k - 1);
    PiecesOfPrefix(line, head, text, sep);
    OpenerAfterSeparator(fields, k, line, |head| + |text|, sep);
  }

  /** Where the separator before field `k` stands, the scan for field `k`'s opener stops two characters on. */
  lemma OpenerAfterSeparator(fields: seq<Field>, k: nat, line: string, e0: nat, sep: string)
    requires Scannable(fields) && 0 < k < |fields| && sep == Separator(fields, k - 1)
    requires e0 + |sep| <= |line| && line[e0..e0 + |sep|] == sep
    ensures Find(line, fields[k].opener, e0) == e0 + 2
  {
    SeparatorBetween(fields, k);
    OpenerAfterCloser(line, e0, fields[k - 1].closer, fields[k].opener, sep);
  }

  /** Field `k`'s text starts `skip` past the position two characters after field `k - 1`'s text ends. */
  lemma ComposeStep(fields: seq<Field>, prefix: string, texts: seq<string>, k: nat)
    requires Scannable(fields) && 0 < k < |fields| && |texts| == |fields|
    ensures |Compose(fields, prefix, texts, k)| ==
            |Compose(fields, prefix, texts, k - 1)| + |texts[k - 1]| + 2 + fields[k].skip
  {
    SeparatorBetween(fields, k);
  }

  /** Between two fields of a scannable layout stand a one-letter closer, a space, a run of bars and a space. */
  lemma SeparatorBetween(fields: seq<Field>, k: nat)
    requires Scannable(fields) && 0 < k < |fields|
    ensures var closer, opener := fields[k - 1].closer, fields[k].opener;
            && |closer| == 1 && closer[0] != '|'
            && |opener| > 0 && (forall q :: 0 <= q < |opener| ==> opener[q] == '|')
            && Separator(fields, k - 1) == closer + " " + opener + " "
            && |Separator(fields, k - 1)| == fields[k].skip + 2
  {
  }

  /** After a one-character closer and a space, the scan for an opener of bars finds it at once. */
  lemma OpenerAfterCloser(line: string, e0: nat, closer: string, opener: string, sep: string)
    requires |closer| == 1 && closer[0] != '|' && |opener| > 0
    requires forall q :: 0 <= q < |opener| ==> opener[q] == '|'
    requires sep == closer + " " + opener + " "
    requires e0 + |sep| <= |line| && line[e0..e0 + |sep|] == sep
    ensures Find(line, opener, e0) == e0 + 2
  {
    assert line[e0] == sep[0] && line[e0 + 1] == sep[1];
    forall j | 0 <= j < |opener|
      ensures line[e0 + 2..e0 + 2 + |opener|][j] == opener[j]
    {
      assert line[e0 + 2 + j] == line[e0..e0 + |sep|][2 + j] == sep[2 + j];
    }
    NoOccurrenceWithout(line, opener, e0, e0 + 2);
    FindIs(line, opener, e0, e0 + 2);
  }

  /** The scan for a one-character closer, from the start of a delimiter-free text, stops right after it. */
  lemma ClosesAt(line: string, text: string, s: nat, closer: string, sep: string)
    requires DelimiterFree(text) && (closer == "h" || closer == "m")
    requires |sep| > 0 && sep[0] == closer[0]
    requires s + |text| + |sep| <= |line|
    requires line[s..s + |text|] == text && line[s + |text|..s + |text| + |sep|] == sep
    ensures Find(line, closer, s) == s + |text|
  {
    var e := s + |text|;
    assert line[e] == line[e..e + |sep|][0];
    forall q | s <= q < e
      ensures line[q] != closer[0]
    {
      assert line[s..e][q - s] == line[q];
    }
    NoOccurrenceWithout(line, closer, s, e);
    assert line[e..e + 1] == [line[e]];
    FindIs(line, closer, s, e);
  }
}
