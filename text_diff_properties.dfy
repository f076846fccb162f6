/**
 * What the two views and the statistics of the text diff page promise:
 * how lines are numbered, how the split view corresponds to the unified
 * one, where the text of a row comes from, and how the `+N` / `-N`
 * statistics relate to the rows that are displayed.
 */
module TextDiffProperties {
  import opened Options
  import opened Strings
  import opened TextDiff

  // ---------------------------------------------------------------------
  // Indexing the views
  // ---------------------------------------------------------------------

  /** The unified line at position `i` is the line of row `i`, numbered by the rows before it. */
  lemma {:induction false} UnifiedAt(rows: seq<Row>, i: nat)
    requires i < |rows|
    ensures UnifiedOf(rows)[i] == UnifiedLine(rows[i], RightCount(rows[..i]) + 1)
  {
    var front := rows[..|rows| - 1];
    if i < |rows| - 1 {
      UnifiedAt(front, i);
      assert front[..i] == rows[..i];
    } else {
      assert rows[..i] == front;
    }
  }

  /** The split pair at position `i` is the pair of row `i`, numbered by the rows before it. */
  lemma {:induction false} SplitAt(rows: seq<Row>, i: nat)
    requires i < |rows|
    ensures SplitOf(rows)[i] == SplitLine(rows[i], LeftCount(rows[..i]) + 1, RightCount(rows[..i]) + 1)
  {
    var front := rows[..|rows| - 1];
    if i < |rows| - 1 {
      SplitAt(front, i);
      assert front[..i] == rows[..i];
    } else {
      assert rows[..i] == front;
    }
  }

  // ---------------------------------------------------------------------
  // Line numbers
  // ---------------------------------------------------------------------

  /** The line numbers a column shows, top to bottom. */
  function Numbers(lines: seq<DiffLine>): seq<nat>
  {
    if lines == [] then []
    else
      var last := lines[|lines| - 1];
      Numbers(lines[..|lines| - 1]) + (if last.lineNumber.Some? then [last.lineNumber.value] else [])
  }

  /** `1, 2, ..., n`. */
  function Consecutive(n: nat): seq<nat>
  {
    seq(n, i requires 0 <= i < n => i + 1)
  }

  /** The left column of the split view. */
  function Lefts(pairs: seq<SplitDiffLine>): seq<DiffLine>
  {
    seq(|pairs|, i requires 0 <= i < |pairs| => pairs[i].left)
  }

  /** The right column of the split view. */
  function Rights(pairs: seq<SplitDiffLine>): seq<DiffLine>
  {
    seq(|pairs|, i requires 0 <= i < |pairs| => pairs[i].right)
  }

  lemma NumbersSnoc(lines: seq<DiffLine>, x: DiffLine)
    ensures Numbers(lines + [x]) == Numbers(lines) + (if x.lineNumber.Some? then [x.lineNumber.value] else [])
  {
    assert (lines + [x])[..|lines|] == lines;
  }

  lemma ConsecutiveSnoc(n: nat)
    ensures Consecutive(n + 1) == Consecutive(n) + [n + 1]
  {
  }

  /** The numbers of the unified view run 1, 2, ... over the rows of the new text. */
  lemma {:induction false} UnifiedNumbers(rows: seq<Row>)
    ensures Numbers(UnifiedOf(rows)) == Consecutive(RightCount(rows))
  {
    if rows != [] {
      var front, last := rows[..|rows| - 1], rows[|rows| - 1];
      UnifiedNumbers(front);
      NumbersSnoc(UnifiedOf(front), UnifiedLine(last, RightCount(front) + 1));
      ConsecutiveSnoc(RightCount(front));
    }
  }

  /** Each column of the split view numbers its own side 1, 2, ... */
  lemma {:induction false} SplitNumbers(rows: seq<Row>)
    ensures Numbers(Lefts(SplitOf(rows))) == Consecutive(LeftCount(rows))
    ensures Numbers(Rights(SplitOf(rows))) == Consecutive(RightCount(rows))
  {
    if rows != [] {
      var front, last := rows[..|rows| - 1], rows[|rows| - 1];
      SplitNumbers(front);
      var p := SplitLine(last, LeftCount(front) + 1, RightCount(front) + 1);
      assert Lefts(SplitOf(rows)) == Lefts(SplitOf(front)) + [p.left];
      assert Rights(SplitOf(rows)) == Rights(SplitOf(front)) + [p.right];
      NumbersSnoc(Lefts(SplitOf(front)), p.left);
      NumbersSnoc(Rights(SplitOf(front)), p.right);
      ConsecutiveSnoc(LeftCount(front));
      ConsecutiveSnoc(RightCount(front));
    }
  }

  /**
   * The unified view shows one line per row, with the kind and text of the
   * row; a line carries a number exactly when it is not a deletion; no line
   * is an empty placeholder; and the numbers read 1, 2, ... without gaps.
   */
  lemma UnifiedNumbering(diffs: seq<Chunk>)
    ensures |UnifiedView(diffs)| == |Rows(diffs)|
    ensures forall i :: 0 <= i < |Rows(diffs)| ==>
              && UnifiedView(diffs)[i].kind == LineTypeOf(Rows(diffs)[i].op)
              && UnifiedView(diffs)[i].content == Rows(diffs)[i].content
              && (UnifiedView(diffs)[i].lineNumber.None? <==> Rows(diffs)[i].op == Delete)
              && UnifiedView(diffs)[i].kind != EmptyLine
    ensures Numbers(UnifiedView(diffs)) == Consecutive(RightCount(Rows(diffs)))
  {
    var rows := Rows(diffs);
    forall i | 0 <= i < |rows|
      ensures && UnifiedView(diffs)[i].kind == LineTypeOf(rows[i].op)
              && UnifiedView(diffs)[i].content == rows[i].content
              && (UnifiedView(diffs)[i].lineNumber.None? <==> rows[i].op == Delete)
              && UnifiedView(diffs)[i].kind != EmptyLine
    {
      UnifiedAt(rows, i);
    }
    UnifiedNumbers(rows);
  }

  /**
   * The split view shows one pair per row: a side holds a numbered line
   * exactly when the row belongs to that side's text (left: equal or
   * deleted, right: equal or inserted), and an empty placeholder otherwise;
   * each column's numbers read 1, 2, ... without gaps.
   */
  lemma SplitNumbering(diffs: seq<Chunk>)
    ensures |SplitView(diffs)| == |Rows(diffs)|
    ensures forall i :: 0 <= i < |Rows(diffs)| ==>
              && (SplitView(diffs)[i].left.lineNumber.Some? <==> Rows(diffs)[i].op != Insert)
              && (SplitView(diffs)[i].left.kind == EmptyLine <==> Rows(diffs)[i].op == Insert)
              && (SplitView(diffs)[i].right.lineNumber.Some? <==> Rows(diffs)[i].op != Delete)
              && (SplitView(diffs)[i].right.kind == EmptyLine <==> Rows(diffs)[i].op == Delete)
    ensures Numbers(Lefts(SplitView(diffs))) == Consecutive(LeftCount(Rows(diffs)))
    ensures Numbers(Rights(SplitView(diffs))) == Consecutive(RightCount(Rows(diffs)))
  {
    var rows := Rows(diffs);
    forall i | 0 <= i < |rows|
      ensures && (SplitView(diffs)[i].left.lineNumber.Some? <==> rows[i].op != Insert)
              && (SplitView(diffs)[i].left.kind == EmptyLine <==> rows[i].op == Insert)
              && (SplitView(diffs)[i].right.lineNumber.Some? <==> rows[i].op != Delete)
              && (SplitView(diffs)[i].right.kind == EmptyLine <==> rows[i].op == Delete)
    {
      SplitAt(rows, i);
    }
    SplitNumbers(rows);
  }

  /**
   * The split view lays out the unified view in two columns: a deleted line
   * moves to the left with an empty right side; every other line stays on the
   * right unchanged (number included), with an empty left side for an
   * insertion and the same text on the left for an equal line. No pair is
   * empty on both sides.
   */
  lemma SplitMatchesUnified(diffs: seq<Chunk>)
    ensures |SplitView(diffs)| == |UnifiedView(diffs)|
    ensures forall i :: 0 <= i < |UnifiedView(diffs)| ==>
              if UnifiedView(diffs)[i].kind == DeleteLine then
                && SplitView(diffs)[i].left.kind == DeleteLine
                && SplitView(diffs)[i].left.content == UnifiedView(diffs)[i].content
                && SplitView(diffs)[i].right == DiffLine(EmptyLine, "", None)
              else
                && SplitView(diffs)[i].right == UnifiedView(diffs)[i]
                && (UnifiedView(diffs)[i].kind == InsertLine ==>
                      SplitView(diffs)[i].left == DiffLine(EmptyLine, "", None))
                && (UnifiedView(diffs)[i].kind == EqualLine ==>
                      SplitView(diffs)[i].left.kind == EqualLine
                      && SplitView(diffs)[i].left.content == UnifiedView(diffs)[i].content)
    ensures forall i :: 0 <= i < |SplitView(diffs)| ==>
              SplitView(diffs)[i].left.kind != EmptyLine || SplitView(diffs)[i].right.kind != EmptyLine
  {
    var rows := Rows(diffs);
    forall i | 0 <= i < |rows|
      ensures SplitView(diffs)[i] == SplitLine(rows[i], LeftCount(rows[..i]) + 1, RightCount(rows[..i]) + 1)
      ensures UnifiedView(diffs)[i] == UnifiedLine(rows[i], RightCount(rows[..i]) + 1)
    {
      SplitAt(rows, i);
      UnifiedAt(rows, i);
    }
  }

  // ---------------------------------------------------------------------
  // Where the text of a row comes from
  // ---------------------------------------------------------------------

  /** Every row is a segment of some chunk, and carries that chunk's op. */
  lemma {:induction false} RowOrigin(diffs: seq<Chunk>, i: nat)
    requires i < |Rows(diffs)|
    ensures exists k :: 0 <= k < |diffs| && Rows(diffs)[i].op == diffs[k].op
                        && Rows(diffs)[i].content in Segments(diffs[k].text)
  {
    var n := |diffs|;
    var front := diffs[..n - 1];
    if i < |Rows(front)| {
      RowOrigin(front, i);
      var k :| 0 <= k < |front| && Rows(front)[i].op == front[k].op
               && Rows(front)[i].content in Segments(front[k].text);
      assert diffs[k] == front[k];
    } else {
      var j := i - |Rows(front)|;
      assert Rows(diffs)[i] == ChunkRows(diffs[n - 1])[j];
      assert Segments(diffs[n - 1].text)[j] == Rows(diffs)[i].content;
    }
  }

  /** The text of a chunk that is not an insertion is part of the old text. */
  lemma {:induction false} ChunkInOldText(diffs: seq<Chunk>, k: nat)
    requires k < |diffs| && diffs[k].op != Insert
    ensures forall ch :: ch in diffs[k].text ==> ch in OldText(diffs)
  {
    var n := |diffs|;
    if k < n - 1 {
      ChunkInOldText(diffs[..n - 1], k);
    }
  }

  /** The text of a chunk that is not a deletion is part of the new text. */
  lemma {:induction false} ChunkInNewText(diffs: seq<Chunk>, k: nat)
    requires k < |diffs| && diffs[k].op != Delete
    ensures forall ch :: ch in diffs[k].text ==> ch in NewText(diffs)
  {
    var n := |diffs|;
    if k < n - 1 {
      ChunkInNewText(diffs[..n - 1], k);
    }
  }

  /** The text of a chunk that is not an insertion occurs, whole, in the old text. */
  lemma {:induction false} ChunkWithinOldText(diffs: seq<Chunk>, k: nat)
    requires k < |diffs| && diffs[k].op != Insert
    ensures Contains(OldText(diffs), diffs[k].text)
  {
    var n := |diffs|;
    var last := diffs[n - 1];
    var tail := if last.op != Insert then last.text else [];
    if k < n - 1 {
      ChunkWithinOldText(diffs[..n - 1], k);
      ContainsExtended(OldText(diffs[..n - 1]), tail, diffs[k].text);
    } else {
      ContainsSelf(last.text);
      ContainsExtended(last.text, OldText(diffs[..n - 1]), last.text);
    }
  }

  /** The text of a chunk that is not a deletion occurs, whole, in the new text. */
  lemma {:induction false} ChunkWithinNewText(diffs: seq<Chunk>, k: nat)
    requires k < |diffs| && diffs[k].op != Delete
    ensures Contains(NewText(diffs), diffs[k].text)
  {
    var n := |diffs|;
    var last := diffs[n - 1];
    var tail := if last.op != Delete then last.text else [];
    if k < n - 1 {
      ChunkWithinNewText(diffs[..n - 1], k);
      ContainsExtended(NewText(diffs[..n - 1]), tail, diffs[k].text);
    } else {
      ContainsSelf(last.text);
      ContainsExtended(last.text, NewText(diffs[..n - 1]), last.text);
    }
  }

  /**
   * A row holds no line break and is a contiguous piece of the text of its
   * side, so every character it shows comes from that text: the old text for
   * equal and deleted rows, the new text for equal and inserted rows.
   */
  lemma RowCharsFromSides(diffs: seq<Chunk>, i: nat)
    requires i < |Rows(diffs)|
    ensures '\n' !in Rows(diffs)[i].content
    ensures Rows(diffs)[i].op != Insert ==> forall ch :: ch in Rows(diffs)[i].content ==> ch in OldText(diffs)
    ensures Rows(diffs)[i].op != Delete ==> forall ch :: ch in Rows(diffs)[i].content ==> ch in NewText(diffs)
    ensures Rows(diffs)[i].op != Insert ==> Contains(OldText(diffs), Rows(diffs)[i].content)
    ensures Rows(diffs)[i].op != Delete ==> Contains(NewText(diffs), Rows(diffs)[i].content)
  {
    RowOrigin(diffs, i);
    var k :| 0 <= k < |diffs| && Rows(diffs)[i].op == diffs[k].op
             && Rows(diffs)[i].content in Segments(diffs[k].text);
    var content := Rows(diffs)[i].content;
    SegmentParts(diffs[k].text);
    SegmentInText(diffs[k].text, content);
    if diffs[k].op != Insert {
      ChunkInOldText(diffs, k);
      ChunkWithinOldText(diffs, k);
      ContainsTransitive(OldText(diffs), diffs[k].text, content);
    }
    if diffs[k].op != Delete {
      ChunkInNewText(diffs, k);
      ChunkWithinNewText(diffs, k);
      ContainsTransitive(NewText(diffs), diffs[k].text, content);
    }
  }

  /** A string without spaces, tabs or upper-case letters keeps those properties in every part of it. */
  lemma CleanChars(s: string, p: string, ignoreWhitespace: bool, ignoreCase: bool)
    requires forall ch :: ch in s ==> ch in p
    requires ignoreWhitespace ==> forall ch :: ch in p ==> !IsSpaceOrTab(ch)
    requires ignoreCase ==> NoUpper(p)
    ensures ignoreWhitespace ==> forall ch :: ch in s ==> !IsSpaceOrTab(ch)
    ensures ignoreCase ==> NoUpper(s)
  {
    if ignoreCase {
      forall j | 0 <= j < |s| ensures !('A' <= s[j] <= 'Z') {
        assert s[j] in p;
      }
    }
  }

  /** Both sides of a diff of the two normalised texts carry the normalisation. */
  lemma SidesAreNormalised(text1: string, text2: string, ignoreWhitespace: bool, ignoreCase: bool,
                           diffs: seq<Chunk>)
    requires IsDiffOf(diffs, Normalize(text1, ignoreWhitespace, ignoreCase),
                      Normalize(text2, ignoreWhitespace, ignoreCase))
    ensures ignoreWhitespace ==> forall ch :: ch in OldText(diffs) ==> !IsSpaceOrTab(ch)
    ensures ignoreWhitespace ==> forall ch :: ch in NewText(diffs) ==> !IsSpaceOrTab(ch)
    ensures ignoreCase ==> NoUpper(OldText(diffs)) && NoUpper(NewText(diffs))
  {
  }

  /** A row of chunks whose sides carry the normalisation shows normalised text. */
  lemma RowIsNormalised(diffs: seq<Chunk>, i: nat, ignoreWhitespace: bool, ignoreCase: bool)
    requires i < |Rows(diffs)|
    requires ignoreWhitespace ==> forall ch :: ch in OldText(diffs) ==> !IsSpaceOrTab(ch)
    requires ignoreWhitespace ==> forall ch :: ch in NewText(diffs) ==> !IsSpaceOrTab(ch)
    requires ignoreCase ==> NoUpper(OldText(diffs)) && NoUpper(NewText(diffs))
    ensures '\n' !in Rows(diffs)[i].content
    ensures ignoreWhitespace ==> forall ch :: ch in Rows(diffs)[i].content ==> !IsSpaceOrTab(ch)
    ensures ignoreCase ==> NoUpper(Rows(diffs)[i].content)
  {
    RowCharsFromSides(diffs, i);
    var r := Rows(diffs)[i];
    if r.op != Insert {
      CleanChars(r.content, OldText(diffs), ignoreWhitespace, ignoreCase);
    } else {
      CleanChars(r.content, NewText(diffs), ignoreWhitespace, ignoreCase);
    }
  }

  /** Unified line `i` shows the content of row `i`. */
  lemma UnifiedContent(rows: seq<Row>, i: nat)
    requires i < |rows|
    ensures UnifiedOf(rows)[i].content == rows[i].content
  {
    UnifiedAt(rows, i);
  }

  /** Row `i` of a diff of the two normalised texts shows normalised text. */
  lemma RowShowsProcessedText(text1: string, text2: string, ignoreWhitespace: bool, ignoreCase: bool,
                              diffs: seq<Chunk>, i: nat)
    requires IsDiffOf(diffs, Normalize(text1, ignoreWhitespace, ignoreCase),
                      Normalize(text2, ignoreWhitespace, ignoreCase))
    requires i < |Rows(diffs)|
    ensures UnifiedView(diffs)[i].content == Rows(diffs)[i].content
    ensures '\n' !in Rows(diffs)[i].content
    ensures ignoreWhitespace ==> forall ch :: ch in Rows(diffs)[i].content ==> !IsSpaceOrTab(ch)
    ensures ignoreCase ==> NoUpper(Rows(diffs)[i].content)
  {
    UnifiedContent(Rows(diffs), i);
    SidesAreNormalised(text1, text2, ignoreWhitespace, ignoreCase, diffs);
    RowIsNormalised(diffs, i, ignoreWhitespace, ignoreCase);
  }

  /**
   * When the chunks are a diff of the two normalised texts, every displayed
   * line shows normalised text: no line break, no space or tab when
   * whitespace is ignored, no upper-case letter when case is ignored.
   */
  lemma RowsShowProcessedText(text1: string, text2: string, ignoreWhitespace: bool, ignoreCase: bool,
                              diffs: seq<Chunk>)
    requires IsDiffOf(diffs, Normalize(text1, ignoreWhitespace, ignoreCase),
                      Normalize(text2, ignoreWhitespace, ignoreCase))
    ensures forall i :: 0 <= i < |UnifiedView(diffs)| ==>
              && '\n' !in UnifiedView(diffs)[i].content
              && (ignoreWhitespace ==> forall ch :: ch in UnifiedView(diffs)[i].content ==> !IsSpaceOrTab(ch))
              && (ignoreCase ==> NoUpper(UnifiedView(diffs)[i].content))
  {
    forall i | 0 <= i < |UnifiedView(diffs)|
      ensures && '\n' !in UnifiedView(diffs)[i].content
              && (ignoreWhitespace ==> forall ch :: ch in UnifiedView(diffs)[i].content ==> !IsSpaceOrTab(ch))
              && (ignoreCase ==> NoUpper(UnifiedView(diffs)[i].content))
    {
      RowShowsProcessedText(text1, text2, ignoreWhitespace, ignoreCase, diffs, i);
    }
  }

  // ---------------------------------------------------------------------
  // Statistics against the displayed rows
  // ---------------------------------------------------------------------

  /** The number of chunks with op `op`. */
  function OpCount(diffs: seq<Chunk>, op: Op): nat
  {
    if diffs == [] then 0
    else OpCount(diffs[..|diffs| - 1], op) + (if diffs[|diffs| - 1].op == op then 1 else 0)
  }

  /** The number of rows with op `op`. */
  function RowOpCount(rows: seq<Row>, op: Op): nat
  {
    if rows == [] then 0
    else RowOpCount(rows[..|rows| - 1], op) + (if rows[|rows| - 1].op == op then 1 else 0)
  }

  /** Every inserted chunk adds at least one to `additions`, every deleted chunk to `deletions`. */
  lemma {:induction false} StatsCountChunks(diffs: seq<Chunk>)
    ensures Additions(diffs) >= OpCount(diffs, Insert)
    ensures Additions(diffs) == 0 <==> OpCount(diffs, Insert) == 0
    ensures Deletions(diffs) >= OpCount(diffs, Delete)
    ensures Deletions(diffs) == 0 <==> OpCount(diffs, Delete) == 0
  {
    if diffs != [] {
      StatsCountChunks(diffs[..|diffs| - 1]);
    }
  }

  lemma {:induction false} RowOpCountAppend(a: seq<Row>, b: seq<Row>, op: Op)
    ensures RowOpCount(a + b, op) == RowOpCount(a, op) + RowOpCount(b, op)
  {
    if b == [] {
      assert a + b == a;
    } else {
      var front := b[..|b| - 1];
      assert (a + b)[..|a + b| - 1] == a + front;
      RowOpCountAppend(a, front, op);
    }
  }

  lemma {:induction false} RowOpCountOf(o: Op, segs: seq<string>, op: Op)
    ensures RowOpCount(RowsOf(o, segs), op) == if o == op then |segs| else 0
  {
    if segs != [] {
      var n := |segs|;
      assert RowsOf(o, segs)[..n - 1] == RowsOf(o, segs[..n - 1]);
      RowOpCountOf(o, segs[..n - 1], op);
    }
  }

  /** A non-empty chunk counts `ChangedLines` in the statistics and shows that many rows, or one more. */
  lemma ChangedLinesVersusSegments(text: string)
    requires text != []
    ensures ChangedLines(text) <= |Segments(text)| <= ChangedLines(text) + 1
  {
  }

  /**
   * With no empty chunk, `additions` never exceeds the number of inserted
   * rows shown, and falls short of it by at most one per inserted chunk
   * (the last segment of a chunk that does not end in a line break is shown
   * but not counted); the same holds for `deletions`.
   */
  lemma {:induction false} StatsVersusRows(diffs: seq<Chunk>)
    requires forall k :: 0 <= k < |diffs| ==> diffs[k].text != []
    ensures Additions(diffs) <= RowOpCount(Rows(diffs), Insert) <= Additions(diffs) + OpCount(diffs, Insert)
    ensures Deletions(diffs) <= RowOpCount(Rows(diffs), Delete) <= Deletions(diffs) + OpCount(diffs, Delete)
  {
    if diffs != [] {
      var front, last := diffs[..|diffs| - 1], diffs[|diffs| - 1];
      StatsVersusRows(front);
      RowOpCountAppend(Rows(front), ChunkRows(last), Insert);
      RowOpCountAppend(Rows(front), ChunkRows(last), Delete);
      RowOpCountOf(last.op, Segments(last.text), Insert);
      RowOpCountOf(last.op, Segments(last.text), Delete);
      ChangedLinesVersusSegments(last.text);
    }
  }

  // ---------------------------------------------------------------------
  // Worked examples
  // ---------------------------------------------------------------------

  /** A chunk that is one line, with or without its line break, is one row. */
  lemma OneLineChunk(s: string)
    requires s != [] && '\n' !in s
    ensures Segments(s) == [s] && Segments(s + "\n") == [s]
    ensures Count(s, '\n') == 0 && Count(s + "\n", '\n') == 1
  {
    SplitWithoutSep(s, '\n');
    SplitAfterPart(s, [], '\n');
    assert s + "\n" + [] == s + "\n";
    CountAbsent(s, '\n');
    CountAppend(s, "\n", '\n');
  }

  /** A chunk that is one line ended by a line break shows as one row. */
  lemma OneLineChunkRows(op: Op, s: string)
    requires s != [] && '\n' !in s
    ensures ChunkRows(Chunk(op, s + "\n")) == [Row(op, s)]
  {
    OneLineChunk(s);
  }

  /** The rows of an equal, a deleted and an inserted line. */
  lemma ThreeLineRows(a: string, b: string, c: string)
    requires a != [] && b != [] && c != []
    requires '\n' !in a && '\n' !in b && '\n' !in c
    ensures Rows([Chunk(Equal, a + "\n"), Chunk(Delete, b + "\n"), Chunk(Insert, c + "\n")])
            == [Row(Equal, a), Row(Delete, b), Row(Insert, c)]
  {
    var x, y, z := Chunk(Equal, a + "\n"), Chunk(Delete, b + "\n"), Chunk(Insert, c + "\n");
    TwoLineRows(a, b);
    RowsAppendChunk([x, y], z);
    OneLineChunkRows(Insert, c);
    assert [x, y] + [z] == [x, y, z];
  }

  /** The first two chunks of that example: an equal and a deleted line. */
  lemma TwoLineRows(a: string, b: string)
    requires a != [] && b != []
    requires '\n' !in a && '\n' !in b
    ensures Rows([Chunk(Equal, a + "\n"), Chunk(Delete, b + "\n")]) == [Row(Equal, a), Row(Delete, b)]
  {
    var x, y := Chunk(Equal, a + "\n"), Chunk(Delete, b + "\n");
    SingleChunkRows(x);
    OneLineChunkRows(Equal, a);
    RowsAppendChunk([x], y);
    OneLineChunkRows(Delete, b);
    assert [x] + [y] == [x, y];
  }

  /** Appending a chunk appends its rows. */
  lemma RowsAppendChunk(diffs: seq<Chunk>, c: Chunk)
    ensures Rows(diffs + [c]) == Rows(diffs) + ChunkRows(c)
  {
    var d := diffs + [c];
    RowsSnoc(d, |diffs|);
    assert d[..|diffs|] == diffs && d[..|diffs| + 1] == d;
  }

  /**
   * An equal, a deleted and an inserted line: the unified view numbers the
   * equal line 1, leaves the deleted one unnumbered and numbers the inserted
   * one 2; the split view puts the deleted line on the left as line 2.
   */
  lemma ThreeLineExample(a: string, b: string, c: string)
    requires a != [] && b != [] && c != []
    requires '\n' !in a && '\n' !in b && '\n' !in c
    ensures var diffs := [Chunk(Equal, a + "\n"), Chunk(Delete, b + "\n"), Chunk(Insert, c + "\n")];
            && UnifiedView(diffs) == [DiffLine(EqualLine, a, Some(1)), DiffLine(DeleteLine, b, None),
                                      DiffLine(InsertLine, c, Some(2))]
            && SplitView(diffs)[1] == SplitDiffLine(DiffLine(DeleteLine, b, Some(2)), DiffLine(EmptyLine, "", None))
  {
    var rows := [Row(Equal, a), Row(Delete, b), Row(Insert, c)];
    ThreeLineRows(a, b, c);
    assert rows[..2][..1] == rows[..1] && rows[..1][..0] == [];
    UnifiedAt(rows, 0);
    UnifiedAt(rows, 1);
    UnifiedAt(rows, 2);
    SplitAt(rows, 1);
  }

  /** The statistics of an equal, a deleted and an inserted line: one addition and one deletion. */
  lemma ThreeLineStats(a: string, b: string, c: string)
    requires '\n' !in b && '\n' !in c
    ensures var diffs := [Chunk(Equal, a + "\n"), Chunk(Delete, b + "\n"), Chunk(Insert, c + "\n")];
            Additions(diffs) == 1 && Deletions(diffs) == 1
  {
    var diffs := [Chunk(Equal, a + "\n"), Chunk(Delete, b + "\n"), Chunk(Insert, c + "\n")];
    CountAbsent(b, '\n');
    CountAppend(b, "\n", '\n');
    CountAbsent(c, '\n');
    CountAppend(c, "\n", '\n');
    assert diffs[..2][..1] == diffs[..1] && diffs[..1][..0] == [];
    assert Additions(diffs[..1]) == 0 && Deletions(diffs[..1]) == 0;
    assert Additions(diffs[..2]) == 0 && Deletions(diffs[..2]) == 1;
  }

  /** Two lines joined by one line break show as two rows, and the text holds one line break. */
  lemma TwoLineChunkRows(op: Op, a: string, b: string)
    requires b != [] && '\n' !in a && '\n' !in b
    ensures ChunkRows(Chunk(op, a + "\n" + b)) == [Row(op, a), Row(op, b)]
    ensures Count(a + "\n" + b, '\n') == 1
  {
    var text := a + "\n" + b;
    assert Join([a, b], "\n") == text;
    SplitJoin([a, b], '\n');
    assert Segments(text) == [a, b];
  }

  /** An insertion of two lines without a final line break shows two rows but counts one addition. */
  lemma UncountedLastLineExample(a: string, b: string)
    requires b != [] && '\n' !in a && '\n' !in b
    ensures var diffs := [Chunk(Insert, a + "\n" + b)];
            && Additions(diffs) == 1
            && UnifiedView(diffs) == [DiffLine(InsertLine, a, Some(1)), DiffLine(InsertLine, b, Some(2))]
  {
    var diffs := [Chunk(Insert, a + "\n" + b)];
    TwoLineChunkRows(Insert, a, b);
    SingleChunkRows(diffs[0]);
    TwoInsertLines(a, b);
  }

  /** The rows of a one-chunk diff are that chunk's rows. */
  lemma SingleChunkRows(c: Chunk)
    ensures Rows([c]) == ChunkRows(c)
  {
    RowsSnoc([c], 0);
    assert [c][..0] == [] && [c][..1] == [c];
  }

  /** Two inserted rows are numbered 1 and 2. */
  lemma TwoInsertLines(a: string, b: string)
    ensures UnifiedOf([Row(Insert, a), Row(Insert, b)])
            == [DiffLine(InsertLine, a, Some(1)), DiffLine(InsertLine, b, Some(2))]
  {
    var rows := [Row(Insert, a), Row(Insert, b)];
    assert rows[..1][..0] == [];
    UnifiedAt(rows, 0);
    UnifiedAt(rows, 1);
  }
}
