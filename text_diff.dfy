/**
 * The text-diff panel: normalisation of the two inputs, the projection of
 * the library's chunk list onto unified and split display rows, and the
 * addition/deletion statistics.
 *
 * The chunk list itself comes from `diff_main` followed by
 * `diff_cleanupSemantic` of the diff-match-patch library, which is not part
 * of this model. It enters as a parameter, and the only thing assumed of it
 * is `IsDiffOf`: the equal and deleted texts concatenate to the first
 * processed text, the equal and inserted texts to the second.
 */
module TextDiff {
  import opened Options
  import opened Strings

  /** `DIFF_EQUAL`, `DIFF_DELETE`, `DIFF_INSERT`. */
  datatype Op = Equal | Delete | Insert

  /** One `[op, text]` tuple of the diff result. */
  datatype Chunk = Chunk(op: Op, text: string)

  /** The kinds a displayed line can have. */
  datatype LineType = EqualLine | DeleteLine | InsertLine | EmptyLine

  /** `DiffLine`: a displayed line with its optional line number. */
  datatype DiffLine = DiffLine(kind: LineType, content: string, lineNumber: Option<nat>)

  /** `SplitDiffLine`: one row of the two-column view. */
  datatype SplitDiffLine = SplitDiffLine(left: DiffLine, right: DiffLine)

  // ---------------------------------------------------------------------
  // The assumed contract of the diff library
  // ---------------------------------------------------------------------

  /** The texts of the equal and deleted chunks, in order. */
  function OldText(diffs: seq<Chunk>): string
  {
    if diffs == [] then []
    else
      var last := diffs[|diffs| - 1];
      OldText(diffs[..|diffs| - 1]) + (if last.op != Insert then last.text else [])
  }

  /** The texts of the equal and inserted chunks, in order. */
  function NewText(diffs: seq<Chunk>): string
  {
    if diffs == [] then []
    else
      var last := diffs[|diffs| - 1];
      NewText(diffs[..|diffs| - 1]) + (if last.op != Delete then last.text else [])
  }

  /** What the model assumes of `diff_main` + `diff_cleanupSemantic` on `(text1, text2)`. */
  predicate IsDiffOf(diffs: seq<Chunk>, text1: string, text2: string)
  {
    OldText(diffs) == text1 && NewText(diffs) == text2
  }

  // ---------------------------------------------------------------------
  // Normalisation
  // ---------------------------------------------------------------------

  predicate IsSpaceOrTab(c: char)
  {
    c == ' ' || c == '\t'
  }

  /** `text.replace(/[ \t]+/g, '')`. */
  function StripSpaces(s: string): (r: string)
    ensures IsSubsequence(r, s)
    ensures forall c :: c in r ==> !IsSpaceOrTab(c)
    ensures forall c :: !IsSpaceOrTab(c) ==> Count(r, c) == Count(s, c)
    ensures |r| == |s| - Count(s, ' ') - Count(s, '\t')
  {
    if s == [] then []
    else if IsSpaceOrTab(s[0]) then StripSpaces(s[1..])
    else
      var rest := StripSpaces(s[1..]);
      assert ([s[0]] + rest)[1..] == rest;
      [s[0]] + rest
  }

  lemma {:induction false} StripSpacesKeepsClean(s: string)
    requires forall c :: c in s ==> !IsSpaceOrTab(c)
    ensures StripSpaces(s) == s
  {
    if s != [] {
      StripSpacesKeepsClean(s[1..]);
      assert s == [s[0]] + s[1..];
    }
  }

  /** `processedText1` / `processedText2`: strip spaces and tabs, then lower-case. */
  function Normalize(text: string, ignoreWhitespace: bool, ignoreCase: bool): (r: string)
    ensures !ignoreCase ==> r == (if ignoreWhitespace then StripSpaces(text) else text)
    ensures ignoreCase ==> r == Lower(if ignoreWhitespace then StripSpaces(text) else text)
    ensures ignoreWhitespace ==> forall c :: c in r ==> !IsSpaceOrTab(c)
    ensures |r| == |text| - (if ignoreWhitespace then Count(text, ' ') + Count(text, '\t') else 0)
    ensures ignoreCase ==> NoUpper(r)
    ensures Lower(r) == Lower(if ignoreWhitespace then StripSpaces(text) else text)
    ensures Count(r, '\n') == Count(text, '\n')
  {
    var t := if ignoreWhitespace then StripSpaces(text) else text;
    CountLower(t, '\n');
    LowerFixedIffNoUpper(t);
    LowerIdempotent(t);
    if ignoreCase then Lower(t) else t
  }

  lemma NormalizeIdempotent(text: string, ignoreWhitespace: bool, ignoreCase: bool)
    ensures var once := Normalize(text, ignoreWhitespace, ignoreCase);
            Normalize(once, ignoreWhitespace, ignoreCase) == once
  {
    var once := Normalize(text, ignoreWhitespace, ignoreCase);
    if ignoreWhitespace {
      assert forall i :: 0 <= i < |once| ==> !IsSpaceOrTab(once[i]);
      StripSpacesKeepsClean(once);
    }
    if ignoreCase {
      LowerIdempotent(if ignoreWhitespace then StripSpaces(text) else text);
    }
  }

  // ---------------------------------------------------------------------
  // Rows: one per '\n'-separated segment of a chunk
  // ---------------------------------------------------------------------

  /** `text.split('\n')` without its last element when that one is empty. */
  function Segments(text: string): (segs: seq<string>)
    ensures |segs| == Count(text, '\n') + (if text != [] && text[|text| - 1] != '\n' then 1 else 0)
  {
    var parts := Split(text, '\n');
    SplitLastEmpty(text, '\n');
    if parts[|parts| - 1] == [] then parts[..|parts| - 1] else parts
  }

  /** No segment holds a '\n', and every character of a segment comes from the chunk text. */
  lemma SegmentParts(text: string)
    ensures forall s :: s in Segments(text) ==> '\n' !in s
    ensures forall s, ch :: s in Segments(text) && ch in s ==> ch in text
  {
    SplitParts(text, '\n');
  }

  /** Every segment is a contiguous piece of its chunk text. */
  lemma SegmentInText(text: string, seg: string)
    requires seg in Segments(text)
    ensures Contains(text, seg)
  {
    var segs := Segments(text);
    var k :| 0 <= k < |segs| && segs[k] == seg;
    SegmentsRebuildText(text);
    JoinContainsPart(segs, "\n", k);
    ContainsExtended(Join(segs, "\n"), if text != [] && text[|text| - 1] == '\n' then "\n" else "", seg);
  }

  lemma {:induction false} JoinSnoc(parts: seq<string>, p: string, sep: string)
    requires parts != []
    ensures Join(parts + [p], sep) == Join(parts, sep) + sep + p
  {
    if |parts| > 1 {
      assert (parts + [p])[1..] == parts[1..] + [p];
      JoinSnoc(parts[1..], p, sep);
    }
  }

  /** The segments give back the chunk text: joined by '\n', plus the trailing '\n' that was dropped. */
  lemma SegmentsRebuildText(text: string)
    ensures text == Join(Segments(text), "\n") + (if text != [] && text[|text| - 1] == '\n' then "\n" else "")
  {
    var parts := Split(text, '\n');
    JoinSplit(text, '\n');
    SplitLastEmpty(text, '\n');
    if text == [] {
      assert Segments(text) == [];
    } else if text[|text| - 1] == '\n' {
      CountPositive(text, '\n');
      var init := parts[..|parts| - 1];
      assert Segments(text) == init && init != [];
      assert parts == init + [[]];
      JoinSnoc(init, [], "\n");
    } else {
      assert Segments(text) == parts;
    }
  }

  /** A row before numbering: the op of its chunk and one segment. */
  datatype Row = Row(op: Op, content: string)

  function RowsOf(op: Op, segs: seq<string>): seq<Row>
  {
    seq(|segs|, i requires 0 <= i < |segs| => Row(op, segs[i]))
  }

  function ChunkRows(c: Chunk): seq<Row>
  {
    RowsOf(c.op, Segments(c.text))
  }

  /** The rows of a whole diff, in emission order. */
  function Rows(diffs: seq<Chunk>): seq<Row>
  {
    if diffs == [] then [] else Rows(diffs[..|diffs| - 1]) + ChunkRows(diffs[|diffs| - 1])
  }

  /** Rows numbered on the left of the split view (equal and delete). */
  function LeftCount(rows: seq<Row>): nat
  {
    if rows == [] then 0
    else LeftCount(rows[..|rows| - 1]) + (if rows[|rows| - 1].op != Insert then 1 else 0)
  }

  /** Rows numbered on the right of the split view and in the unified view (equal and insert). */
  function RightCount(rows: seq<Row>): nat
  {
    if rows == [] then 0
    else RightCount(rows[..|rows| - 1]) + (if rows[|rows| - 1].op != Delete then 1 else 0)
  }

  // ---------------------------------------------------------------------
  // Unified view
  // ---------------------------------------------------------------------

  function LineTypeOf(op: Op): LineType
  {
    match op
    case Equal => EqualLine
    case Delete => DeleteLine
    case Insert => InsertLine
  }

  /** The unified line of `r` when the running counter stands at `next`. */
  function UnifiedLine(r: Row, next: nat): DiffLine
  {
    DiffLine(LineTypeOf(r.op), r.content, if r.op == Delete then None else Some(next))
  }

  function UnifiedOf(rows: seq<Row>): (lines: seq<DiffLine>)
    ensures |lines| == |rows|
  {
    if rows == [] then []
    else
      var front := rows[..|rows| - 1];
      UnifiedOf(front) + [UnifiedLine(rows[|rows| - 1], RightCount(front) + 1)]
  }

  /** The value of the `unifiedDiffLines` memo. */
  function UnifiedView(diffs: seq<Chunk>): seq<DiffLine>
  {
    UnifiedOf(Rows(diffs))
  }

  lemma RowsSnoc(diffs: seq<Chunk>, k: nat)
    requires k < |diffs|
    ensures Rows(diffs[..k + 1]) == Rows(diffs[..k]) + ChunkRows(diffs[k])
  {
    assert diffs[..k + 1][..k] == diffs[..k];
  }

  lemma RowsOfSnoc(op: Op, segs: seq<string>, j: nat)
    requires j < |segs|
    ensures RowsOf(op, segs[..j + 1]) == RowsOf(op, segs[..j]) + [Row(op, segs[j])]
  {
  }

  lemma UnifiedSnoc(rows: seq<Row>, r: Row)
    ensures UnifiedOf(rows + [r]) == UnifiedOf(rows) + [UnifiedLine(r, RightCount(rows) + 1)]
    ensures RightCount(rows + [r]) == RightCount(rows) + (if r.op != Delete then 1 else 0)
  {
    assert (rows + [r])[..|rows|] == rows;
  }

  /** Which element of `text.split('\n')` the loop at `index` turns into a row, if any. */
  lemma SegmentAt(text: string, index: nat)
    requires index < |Split(text, '\n')|
    ensures var parts := Split(text, '\n');
            if index == |parts| - 1 && parts[index] == [] then |Segments(text)| == index
            else index < |Segments(text)| && Segments(text)[index] == parts[index]
  {
  }

  lemma SegmentsFewer(text: string)
    ensures |Segments(text)| <= |Split(text, '\n')|
  {
  }

  /** The `unifiedDiffLines` memo: one loop over the chunks, one over the segments of each. */
  method UnifiedDiffLines(diffResult: seq<Chunk>) returns (lines: seq<DiffLine>)
    ensures lines == UnifiedView(diffResult)
  {
    lines := [];
    var lineNumber: nat := 1;
    ghost var rows: seq<Row> := [];
    for k := 0 to |diffResult|
      invariant rows == Rows(diffResult[..k])
      invariant lines == UnifiedOf(rows)
      invariant lineNumber == RightCount(rows) + 1
    {
      lines, lineNumber := PushUnifiedChunk(lines, lineNumber, diffResult[k], rows);
      RowsSnoc(diffResult, k);
      rows := rows + ChunkRows(diffResult[k]);
    }
    assert diffResult[..|diffResult|] == diffResult;
  }

  /** Emitting the row of segment `j` extends the unified lines of the rows before it. */
  lemma UnifiedStep(rows: seq<Row>, op: Op, segs: seq<string>, j: nat)
    requires j < |segs|
    ensures var before := rows + RowsOf(op, segs[..j]);
            var after := rows + RowsOf(op, segs[..j + 1]);
            && UnifiedOf(after) == UnifiedOf(before) + [UnifiedLine(Row(op, segs[j]), RightCount(before) + 1)]
            && RightCount(after) == RightCount(before) + (if op != Delete then 1 else 0)
  {
    RowsOfSnoc(op, segs, j);
    var before := rows + RowsOf(op, segs[..j]);
    assert rows + RowsOf(op, segs[..j + 1]) == before + [Row(op, segs[j])];
    UnifiedSnoc(before, Row(op, segs[j]));
  }

  /** The body of the inner `forEach` of `unifiedDiffLines`: push one line, numbering it unless deleted. */
  method PushUnifiedLine(lines: seq<DiffLine>, lineNumber: nat, op: Op, line: string)
    returns (lines': seq<DiffLine>, lineNumber': nat)
    ensures lines' == lines + [UnifiedLine(Row(op, line), lineNumber)]
    ensures lineNumber' == lineNumber + (if op != Delete then 1 else 0)
  {
    var diffType := EqualLine;
    if op == Delete {
      diffType := DeleteLine;
    } else if op == Insert {
      diffType := InsertLine;
    }
    var number: Option<nat> := None;
    lineNumber' := lineNumber;
    if diffType == EqualLine || diffType == InsertLine {
      number := Some(lineNumber);
      lineNumber' := lineNumber + 1;
    }
    lines' := lines + [DiffLine(diffType, line, number)];
  }

  /** The body of the outer `forEach` of `unifiedDiffLines`: push the lines of one chunk. */
  method PushUnifiedChunk(lines: seq<DiffLine>, lineNumber: nat, chunk: Chunk, ghost rows: seq<Row>)
    returns (lines': seq<DiffLine>, lineNumber': nat)
    requires lines == UnifiedOf(rows) && lineNumber == RightCount(rows) + 1
    ensures lines' == UnifiedOf(rows + ChunkRows(chunk))
    ensures lineNumber' == RightCount(rows + ChunkRows(chunk)) + 1
  {
    lines', lineNumber' := lines, lineNumber;
    var op, text := chunk.op, chunk.text;
    var textLines := Split(text, '\n');
    ghost var segs := Segments(text);
    SegmentsFewer(text);
    ghost var emitted: nat := 0;
    assert rows + RowsOf(op, segs[..0]) == rows;
    for index := 0 to |textLines|
      invariant emitted == if index <= |segs| then index else |segs|
      invariant lines' == UnifiedOf(rows + RowsOf(op, segs[..emitted]))
      invariant lineNumber' == RightCount(rows + RowsOf(op, segs[..emitted])) + 1
    {
      var line := textLines[index];
      SegmentAt(text, index);
      if !(index == |textLines| - 1 && line == []) {
        UnifiedStep(rows, op, segs, emitted);
        lines', lineNumber' := PushUnifiedLine(lines', lineNumber', op, line);
        emitted := emitted + 1;
      }
    }
    assert segs[..|segs|] == segs;
  }

  // ---------------------------------------------------------------------
  // Split view
  // ---------------------------------------------------------------------

  /** The split row of `r` when the two counters stand at `left` and `right`. */
  function SplitLine(r: Row, left: nat, right: nat): SplitDiffLine
  {
    match r.op
    case Equal =>
      SplitDiffLine(DiffLine(EqualLine, r.content, Some(left)), DiffLine(EqualLine, r.content, Some(right)))
    case Delete =>
      SplitDiffLine(DiffLine(DeleteLine, r.content, Some(left)), DiffLine(EmptyLine, "", None))
    case Insert =>
      SplitDiffLine(DiffLine(EmptyLine, "", None), DiffLine(InsertLine, r.content, Some(right)))
  }

  function SplitOf(rows: seq<Row>): (pairs: seq<SplitDiffLine>)
    ensures |pairs| == |rows|
  {
    if rows == [] then []
    else
      var front := rows[..|rows| - 1];
      SplitOf(front) + [SplitLine(rows[|rows| - 1], LeftCount(front) + 1, RightCount(front) + 1)]
  }

  /** The value of the `splitDiffLines` memo. */
  function SplitView(diffs: seq<Chunk>): seq<SplitDiffLine>
  {
    SplitOf(Rows(diffs))
  }

  lemma SplitSnoc(rows: seq<Row>, r: Row)
    ensures SplitOf(rows + [r]) == SplitOf(rows) + [SplitLine(r, LeftCount(rows) + 1, RightCount(rows) + 1)]
    ensures LeftCount(rows + [r]) == LeftCount(rows) + (if r.op != Insert then 1 else 0)
    ensures RightCount(rows + [r]) == RightCount(rows) + (if r.op != Delete then 1 else 0)
  {
    assert (rows + [r])[..|rows|] == rows;
  }

  /** The `splitDiffLines` memo: one loop over the chunks, two independent counters. */
  method SplitDiffLines(diffResult: seq<Chunk>) returns (lines: seq<SplitDiffLine>)
    ensures lines == SplitView(diffResult)
  {
    lines := [];
    var leftLineNumber: nat := 1;
    var rightLineNumber: nat := 1;
    ghost var rows: seq<Row> := [];
    for k := 0 to |diffResult|
      invariant rows == Rows(diffResult[..k])
      invariant lines == SplitOf(rows)
      invariant leftLineNumber == LeftCount(rows) + 1
      invariant rightLineNumber == RightCount(rows) + 1
    {
      lines, leftLineNumber, rightLineNumber :=
        PushSplitChunk(lines, leftLineNumber, rightLineNumber, diffResult[k], rows);
      RowsSnoc(diffResult, k);
      rows := rows + ChunkRows(diffResult[k]);
    }
    assert diffResult[..|diffResult|] == diffResult;
  }

  /** Emitting the row of segment `j` extends the split rows of the rows before it. */
  lemma SplitStep(rows: seq<Row>, op: Op, segs: seq<string>, j: nat)
    requires j < |segs|
    ensures var before := rows + RowsOf(op, segs[..j]);
            var after := rows + RowsOf(op, segs[..j + 1]);
            && SplitOf(after)
               == SplitOf(before) + [SplitLine(Row(op, segs[j]), LeftCount(before) + 1, RightCount(before) + 1)]
            && LeftCount(after) == LeftCount(before) + (if op != Insert then 1 else 0)
            && RightCount(after) == RightCount(before) + (if op != Delete then 1 else 0)
  {
    RowsOfSnoc(op, segs, j);
    var before := rows + RowsOf(op, segs[..j]);
    assert rows + RowsOf(op, segs[..j + 1]) == before + [Row(op, segs[j])];
    SplitSnoc(before, Row(op, segs[j]));
  }

  /** The body of the inner `forEach` of `splitDiffLines`: push one pair, advancing the counters of its sides. */
  method PushSplitLine(lines: seq<SplitDiffLine>, leftLineNumber: nat, rightLineNumber: nat, op: Op, line: string)
    returns (lines': seq<SplitDiffLine>, leftLineNumber': nat, rightLineNumber': nat)
    ensures lines' == lines + [SplitLine(Row(op, line), leftLineNumber, rightLineNumber)]
    ensures leftLineNumber' == leftLineNumber + (if op != Insert then 1 else 0)
    ensures rightLineNumber' == rightLineNumber + (if op != Delete then 1 else 0)
  {
    lines', leftLineNumber', rightLineNumber' := lines, leftLineNumber, rightLineNumber;
    if op == Equal {
      lines' := lines' + [SplitDiffLine(DiffLine(EqualLine, line, Some(leftLineNumber')),
                                        DiffLine(EqualLine, line, Some(rightLineNumber')))];
      leftLineNumber', rightLineNumber' := leftLineNumber' + 1, rightLineNumber' + 1;
    } else if op == Delete {
      lines' := lines' + [SplitDiffLine(DiffLine(DeleteLine, line, Some(leftLineNumber')),
                                        DiffLine(EmptyLine, "", None))];
      leftLineNumber' := leftLineNumber' + 1;
    } else if op == Insert {
      lines' := lines' + [SplitDiffLine(DiffLine(EmptyLine, "", None),
                                        DiffLine(InsertLine, line, Some(rightLineNumber')))];
      rightLineNumber' := rightLineNumber' + 1;
    }
  }

  /** The body of the outer `forEach` of `splitDiffLines`: push the row pairs of one chunk. */
  method PushSplitChunk(lines: seq<SplitDiffLine>, leftLineNumber: nat, rightLineNumber: nat,
                        chunk: Chunk, ghost rows: seq<Row>)
    returns (lines': seq<SplitDiffLine>, leftLineNumber': nat, rightLineNumber': nat)
    requires lines == SplitOf(rows)
    requires leftLineNumber == LeftCount(rows) + 1 && rightLineNumber == RightCount(rows) + 1
    ensures lines' == SplitOf(rows + ChunkRows(chunk))
    ensures leftLineNumber' == LeftCount(rows + ChunkRows(chunk)) + 1
    ensures rightLineNumber' == RightCount(rows + ChunkRows(chunk)) + 1
  {
    lines', leftLineNumber', rightLineNumber' := lines, leftLineNumber, rightLineNumber;
    var op, text := chunk.op, chunk.text;
    var textLines := Split(text, '\n');
    ghost var segs := Segments(text);
    SegmentsFewer(text);
    ghost var emitted: nat := 0;
    assert rows + RowsOf(op, segs[..0]) == rows;
    for index := 0 to |textLines|
      invariant emitted == if index <= |segs| then index else |segs|
      invariant lines' == SplitOf(rows + RowsOf(op, segs[..emitted]))
      invariant leftLineNumber' == LeftCount(rows + RowsOf(op, segs[..emitted])) + 1
      invariant rightLineNumber' == RightCount(rows + RowsOf(op, segs[..emitted])) + 1
    {
      var line := textLines[index];
      SegmentAt(text, index);
      if !(index == |textLines| - 1 && line == []) {
        SplitStep(rows, op, segs, emitted);
        lines', leftLineNumber', rightLineNumber' :=
          PushSplitLine(lines', leftLineNumber', rightLineNumber', op, line);
        emitted := emitted + 1;
      }
    }
    assert segs[..|segs|] == segs;
  }

  // ---------------------------------------------------------------------
  // Statistics
  // ---------------------------------------------------------------------

  /** What one changed chunk adds to its counter: its '\n' count, or 1 when it has none. */
  function ChangedLines(text: string): nat
  {
    var n := Count(text, '\n');
    if n == 0 then 1 else n
  }

  /** The `additions` of the `stats` memo. */
  function Additions(diffs: seq<Chunk>): nat
  {
    if diffs == [] then 0
    else
      var last := diffs[|diffs| - 1];
      Additions(diffs[..|diffs| - 1]) + (if last.op == Insert then ChangedLines(last.text) else 0)
  }

  /** The `deletions` of the `stats` memo. */
  function Deletions(diffs: seq<Chunk>): nat
  {
    if diffs == [] then 0
    else
      var last := diffs[|diffs| - 1];
      Deletions(diffs[..|diffs| - 1]) + (if last.op == Delete then ChangedLines(last.text) else 0)
  }

  /** The `stats` memo. */
  method Stats(diffResult: seq<Chunk>) returns (additions: nat, deletions: nat)
    ensures additions == Additions(diffResult) && deletions == Deletions(diffResult)
  {
    additions, deletions := 0, 0;
    for k := 0 to |diffResult|
      invariant additions == Additions(diffResult[..k])
      invariant deletions == Deletions(diffResult[..k])
    {
      var op, text := diffResult[k].op, diffResult[k].text;
      var lines := |Split(text, '\n')| - 1;
      if op == Insert {
        additions := additions + (if lines != 0 then lines else 1);
      } else if op == Delete {
        deletions := deletions + (if lines != 0 then lines else 1);
      }
      assert diffResult[..k + 1][..k] == diffResult[..k];
    }
    assert diffResult[..|diffResult|] == diffResult;
  }
}
