/**
 * The table normaliser, `normalize_table` with its `merge_fragments` (parse_factsheet.py:211-250),
 * and the per-page deduplication loop of `extract_tables` (parse_factsheet.py:256-284).
 */
module Tables {
  import opened Wrappers
  import opened CharClass
  import opened Text
  import opened Content

  // ---------------------------------------------------------------------------
  // Cells
  // ---------------------------------------------------------------------------

  /** `clean_cell`: cleaned, glued terms fixed, stripped. */
  function CleanCell(c: string): string {
    Strip(FixGluedDomainTerms(CleanText(c)))
  }

  /** A cleaned cell holds single plain spaces only, none at either end. */
  lemma CleanCellNormalized(c: string)
    ensures Normalized(CleanCell(c))
  {
    CleanTextNormalized(c);
    FixGluedKeepsLettersAndShape(CleanText(c));
    StripKeepsSpacing(FixGluedDomainTerms(CleanText(c)));
  }

  predicate EndsWith(s: string, suffix: string) {
    |suffix| <= |s| && s[|s| - |suffix|..] == suffix
  }

  predicate NoNewline(s: string) {
    forall k :: 0 <= k < |s| ==> s[k] != '\n'
  }

  /** `re.match(r".*[A-Za-z]$", cur)`: `.` stops at a newline, and `$` holds at the end or just
    * before a final newline, so the letter is the last character, or the one before a final
    * newline, with no newline in front of it. */
  predicate EndsInLetter(cur: string) {
    || (|cur| >= 1 && IsLetter(cur[|cur| - 1]) && NoNewline(cur[..|cur| - 1]))
    || (|cur| >= 2 && cur[|cur| - 1] == '\n' && IsLetter(cur[|cur| - 2]) && NoNewline(cur[..|cur| - 2]))
  }

  predicate AllLower(s: string) {
    forall k :: 0 <= k < |s| ==> IsLower(s[k])
  }

  /** `re.match(r"^[a-z]{1,6}$", nxt)`: one to six lower-case letters, perhaps followed by a
    * final newline. */
  predicate ShortLowerWord(nxt: string) {
    || (1 <= |nxt| <= 6 && AllLower(nxt))
    || (2 <= |nxt| <= 7 && nxt[|nxt| - 1] == '\n' && AllLower(nxt[..|nxt| - 1]))
  }

  /** The three reasons to merge a cell with the next one. */
  predicate ShouldMerge(cur: string, nxt: string) {
    || (|cur| <= 4 && |nxt| <= 6)
    || (EndsInLetter(cur) && ShortLowerWord(nxt))
    || (EndsWith(Strip(cur), "%Yo") && StartsWith(Strip(nxt), "Y"))
  }

  /** The merged cell, `(cur + " " + nxt).strip()`. */
  function Joined(cur: string, nxt: string): string {
    Strip(cur + " " + nxt)
  }

  // ---------------------------------------------------------------------------
  // merge_fragments (parse_factsheet.py:222-238)
  // ---------------------------------------------------------------------------

  /** The cells `merge_fragments` emits once `cur` stands at index `i` and `rest` follows: a
    * merge replaces the next cell by the joined one, which is then examined against the cell
    * after it, so merges chain. */
  function MergeCells(cur: string, rest: seq<string>): seq<string>
    decreases |rest|
  {
    if rest == [] then [cur]
    else if ShouldMerge(cur, rest[0]) then MergeCells(Joined(cur, rest[0]), rest[1..])
    else [cur] + MergeCells(rest[0], rest[1..])
  }

  /** `merge_fragments(row)`. */
  function MergeFragments(row: seq<string>): seq<string> {
    if row == [] then [] else MergeCells(row[0], row[1..])
  }

  /** `merge_fragments`: the `while i < len(row)` loop, writing the merged cell into `row[i + 1]`. */
  method MergeFragmentsLoop(row0: seq<string>) returns (merged: seq<string>)
    ensures merged == MergeFragments(row0)
  {
    var row := row0;
    merged := [];
    var i := 0;
    MergeStart(row0);
    while i < |row|
      invariant 0 <= i <= |row| == |row0|
      invariant i < |row| ==> MergeState(row0, row, merged, i)
      invariant i == |row| ==> merged == MergeFragments(row0)
    {
      var cur := row[i];
      if i + 1 < |row| {
        var nxt := row[i + 1];
        if ShouldMerge(cur, nxt) {
          MergeBranch(row0, row, merged, i);
          row := row[i + 1 := Strip(cur + " " + nxt)];
          i := i + 1;
          continue;
        }
        KeepBranch(row0, row, merged, i);
      }
      merged := merged + [cur];
      i := i + 1;
    }
  }

  /** The loop state when `cur` stands at index `i`. */
  predicate MergeState(row0: seq<string>, row: seq<string>, merged: seq<string>, i: nat) {
    i < |row| == |row0| && row[i + 1..] == row0[i + 1..]
    && merged + MergeCells(row[i], row[i + 1..]) == MergeFragments(row0)
  }

  lemma MergeStart(row0: seq<string>)
    ensures row0 != [] ==> MergeState(row0, row0, [], 0)
  {
    if row0 != [] {
      TakeAll(MergeCells(row0[0], row0[1..]));
    }
  }

  /** A merge writes the joined cell into the next slot and moves on to it. */
  lemma MergeBranch(row0: seq<string>, row: seq<string>, merged: seq<string>, i: nat)
    requires MergeState(row0, row, merged, i) && i + 1 < |row| && ShouldMerge(row[i], row[i + 1])
    ensures MergeState(row0, row[i + 1 := Strip(row[i] + " " + row[i + 1])], merged, i + 1)
  {
    var rest := row[i + 1..];
    TailOfSlice(row, i + 1);
    MergeJoinStep(row[i], rest);
    SliceAfterUpdate(row, i + 1, Strip(row[i] + " " + row[i + 1]));
    TailOfSlice(row0, i + 1);
  }

  /** Without a merge the cell is emitted and the next one becomes current. */
  lemma KeepBranch(row0: seq<string>, row: seq<string>, merged: seq<string>, i: nat)
    requires MergeState(row0, row, merged, i) && i + 1 < |row| && !ShouldMerge(row[i], row[i + 1])
    ensures MergeState(row0, row, merged + [row[i]], i + 1)
  {
    var rest := row[i + 1..];
    TailOfSlice(row, i + 1);
    MergeKeepStep(row[i], rest);
    TailOfSlice(row0, i + 1);
    AppendAssoc3(merged, [row[i]], MergeCells(row[i + 1], row[i + 2..]));
  }

  lemma MergeJoinStep(cur: string, rest: seq<string>)
    requires rest != [] && ShouldMerge(cur, rest[0])
    ensures MergeCells(cur, rest) == MergeCells(Joined(cur, rest[0]), rest[1..])
  {
  }

  lemma MergeKeepStep(cur: string, rest: seq<string>)
    requires rest != [] && !ShouldMerge(cur, rest[0])
    ensures MergeCells(cur, rest) == [cur] + MergeCells(rest[0], rest[1..])
  {
  }

  lemma AppendAssoc3<T>(a: seq<T>, b: seq<T>, c: seq<T>)
    ensures (a + b) + c == a + (b + c)
  {
  }

  lemma InitLast<T>(s: seq<T>)
    requires s != []
    ensures s[..|s| - 1] + [s[|s| - 1]] == s
  {
  }

  lemma PrefixOfSnoc<T>(s: seq<T>, x: T)
    ensures (s + [x])[..|s|] == s
  {
  }

  lemma AppendAssoc<T>(a: seq<T>, b: seq<T>, x: T)
    ensures (a + b) + [x] == a + (b + [x])
  {
  }

  lemma TakeAll<T>(s: seq<T>)
    ensures s[..|s|] == s && [] + s == s && s + [] == s
  {
  }

  lemma AppendSlice<T>(d: seq<T>, s: seq<T>, j: nat)
    requires j < |s|
    ensures (d + s[..j]) + [s[j]] == d + s[..j + 1]
  {
    assert s[..j + 1] == s[..j] + [s[j]];
  }

  lemma AppendSliceEnds<T>(d: seq<T>, s: seq<T>)
    ensures d + s[..0] == d && d + s[..|s|] == d + s
  {
  }

  lemma TailOfSlice<T>(s: seq<T>, i: nat)
    requires i < |s|
    ensures s[i..][0] == s[i] && s[i..][1..] == s[i + 1..]
  {
  }

  lemma SliceAfterUpdate<T>(s: seq<T>, i: nat, x: T)
    requires i < |s|
    ensures s[i := x][i + 1..] == s[i + 1..] && s[i := x][i] == x
  {
  }

  /** Every word of every cell. */
  function WordsOf(cells: seq<string>): seq<string> {
    if cells == [] then [] else Words(cells[0]) + WordsOf(cells[1..])
  }

  lemma JoinedWords(cur: string, nxt: string)
    ensures Words(Joined(cur, nxt)) == Words(cur) + Words(nxt)
  {
    StripKeepsWords(cur + " " + nxt);
    WordsAroundSpace(cur, nxt);
  }

  lemma {:induction false} MergeCellsKeepsWords(cur: string, rest: seq<string>)
    ensures WordsOf(MergeCells(cur, rest)) == Words(cur) + WordsOf(rest)
    ensures 1 <= |MergeCells(cur, rest)| <= 1 + |rest|
    decreases |rest|
  {
    if rest != [] {
      WordsOfCons(rest[0], rest[1..]);
      if ShouldMerge(cur, rest[0]) {
        MergeJoinStep(cur, rest);
        MergeCellsKeepsWords(Joined(cur, rest[0]), rest[1..]);
        JoinedWords(cur, rest[0]);
        AppendAssoc3(Words(cur), Words(rest[0]), WordsOf(rest[1..]));
      } else {
        MergeKeepStep(cur, rest);
        MergeCellsKeepsWords(rest[0], rest[1..]);
        WordsOfCons(cur, MergeCells(rest[0], rest[1..]));
      }
    }
  }

  lemma WordsOfCons(c: string, cells: seq<string>)
    ensures WordsOf([c] + cells) == Words(c) + WordsOf(cells)
  {
    assert ([c] + cells)[1..] == cells;
  }

  /** Merging never adds cells, maps `[]` to `[]`, and neither loses, adds nor reorders words. */
  lemma MergeFragmentsKeepsWords(row: seq<string>)
    ensures |MergeFragments(row)| <= |row|
    ensures MergeFragments(row) == [] <==> row == []
    ensures WordsOf(MergeFragments(row)) == WordsOf(row)
  {
    if row != [] {
      MergeCellsKeepsWords(row[0], row[1..]);
    }
  }

  /** No two neighbouring cells from index `i` on trigger a merge. */
  predicate NoMergeFrom(row: seq<string>, i: nat)
    decreases |row| - i
  {
    i + 1 >= |row| || (!ShouldMerge(row[i], row[i + 1]) && NoMergeFrom(row, i + 1))
  }

  lemma {:induction false} NoMergeFromAll(row: seq<string>, i: nat)
    requires forall k :: i <= k < |row| - 1 ==> !ShouldMerge(row[k], row[k + 1])
    ensures NoMergeFrom(row, i)
    decreases |row| - i
  {
    if i + 1 < |row| {
      NoMergeFromAll(row, i + 1);
    }
  }

  /** Cells from index `i` on that never trigger a merge come out unchanged. */
  lemma {:induction false} MergeCellsNoMerge(row: seq<string>, i: nat)
    requires i < |row| && NoMergeFrom(row, i)
    ensures MergeCells(row[i], row[i + 1..]) == row[i..]
    decreases |row| - i
  {
    if i + 1 < |row| {
      MergeCellsNoMerge(row, i + 1);
      MergeKeepAt(row, i);
      ConsSlice(row, i);
    } else {
      assert row[i + 1..] == [] && row[i..] == [row[i]];
    }
  }

  lemma ConsSlice<T>(s: seq<T>, i: nat)
    requires i < |s|
    ensures s[i..] == [s[i]] + s[i + 1..]
  {
  }

  lemma MergeKeepAt(row: seq<string>, i: nat)
    requires i + 1 < |row| && !ShouldMerge(row[i], row[i + 1])
    ensures MergeCells(row[i], row[i + 1..]) == [row[i]] + MergeCells(row[i + 1], row[i + 2..])
  {
    MergeKeepStep(row[i], row[i + 1..]);
    assert row[i + 1..][0] == row[i + 1] && row[i + 1..][1..] == row[i + 2..];
  }

  // ---------------------------------------------------------------------------
  // Trailing empty cells and normalize_table (parse_factsheet.py:211-250)
  // ---------------------------------------------------------------------------

  /** The row without its trailing empty cells. */
  function TrimEmptyTail(row: seq<string>): (r: seq<string>)
    ensures r <= row
    ensures r == [] || r[|r| - 1] != []
    ensures forall k :: |r| <= k < |row| ==> row[k] == []
  {
    if row != [] && row[|row| - 1] == [] then TrimEmptyTail(row[..|row| - 1]) else row
  }

  /** `while cleaned and cleaned[-1] == "": cleaned.pop()`. */
  method TrimTrailingEmpty(row: seq<string>) returns (r: seq<string>)
    ensures r == TrimEmptyTail(row)
  {
    r := row;
    while r != [] && r[|r| - 1] == []
      invariant r <= row
      invariant TrimEmptyTail(r) == TrimEmptyTail(row)
      decreases |r|
    {
      r := r[..|r| - 1];
    }
  }

  /** The table given to `normalize_table`: header and rows with `None` cells already `""`. */
  datatype RawTable = RawTable(headers: seq<string>, rows: seq<seq<string>>)

  /** `[clean_cell(c) for c in cells]`. */
  function CleanCells(cells: seq<string>): seq<string> {
    seq(|cells|, k requires 0 <= k < |cells| => CleanCell(cells[k]))
  }

  /** Every cleaned cell is normalised text, one per raw cell. */
  lemma CleanCellsNormalized(cells: seq<string>)
    ensures |CleanCells(cells)| == |cells|
    ensures forall k :: 0 <= k < |cells| ==> Normalized(CleanCells(cells)[k])
  {
    forall k | 0 <= k < |cells| ensures Normalized(CleanCells(cells)[k]) {
      CleanCellNormalized(cells[k]);
    }
  }

  /** The rows of `normalize_table` once their cells are clean: merged, then trimmed. */
  function TrimmedRows(rows: seq<seq<string>>): seq<seq<string>> {
    seq(|rows|, k requires 0 <= k < |rows| => TrimEmptyTail(MergeFragments(rows[k])))
  }

  /** `normalize_table` once the cells are clean: the header row is merged, every data row is
    * merged and then loses its trailing empty cells. */
  function NormalizeCleaned(headers: seq<string>, rows: seq<seq<string>>): Table {
    Table(MergeFragments(headers), TrimmedRows(rows))
  }

  function CleanRows(rows: seq<seq<string>>): seq<seq<string>> {
    seq(|rows|, k requires 0 <= k < |rows| => CleanCells(rows[k]))
  }

  /** `normalize_table`. */
  function NormalizedTable(t: RawTable): Table {
    NormalizeCleaned(CleanCells(t.headers), CleanRows(t.rows))
  }

  /** `normalize_table`: headers cleaned and merged, each row cleaned, merged and trimmed. */
  method NormalizeTable(t: RawTable) returns (r: Table)
    ensures r == NormalizedTable(t)
  {
    var headers := CleanCells(t.headers);
    var hdrs := MergeFragmentsLoop(headers);
    var rows := NormalizeRows(t.rows);
    r := Table(hdrs, rows);
  }

  /** The row loop of `normalize_table`. */
  method NormalizeRows(raw: seq<seq<string>>) returns (rows: seq<seq<string>>)
    ensures rows == TrimmedRows(CleanRows(raw))
  {
    rows := [];
    for k := 0 to |raw|
      invariant rows == TrimmedRows(CleanRows(raw[..k]))
    {
      var row := NormalizeRow(raw[k]);
      TrimmedRowsSnoc(raw, k, row);
      rows := rows + [row];
    }
    assert raw[..|raw|] == raw;
  }

  /** One data row: cleaned, merged, and without its trailing empty cells. */
  method NormalizeRow(cells: seq<string>) returns (row: seq<string>)
    ensures row == TrimEmptyTail(MergeFragments(CleanCells(cells)))
  {
    row := CleanCells(cells);
    row := MergeFragmentsLoop(row);
    row := TrimTrailingEmpty(row);
  }

  lemma TrimmedRowsSnoc(raw: seq<seq<string>>, k: nat, row: seq<string>)
    requires k < |raw| && row == TrimEmptyTail(MergeFragments(CleanCells(raw[k])))
    ensures TrimmedRows(CleanRows(raw[..k + 1])) == TrimmedRows(CleanRows(raw[..k])) + [row]
  {
    var a := TrimmedRows(CleanRows(raw[..k + 1]));
    var b := TrimmedRows(CleanRows(raw[..k]));
    forall j | 0 <= j <= k ensures a[j] == (b + [row])[j] {
      TrimmedCleanAt(raw[..k + 1], j);
      if j < k {
        TrimmedCleanAt(raw[..k], j);
        assert raw[..k + 1][j] == raw[..k][j];
      }
    }
    TrimmedCleanAt(raw[..k], 0);
    TrimmedCleanAt(raw[..k + 1], 0);
    assert a == b + [row];
  }

  lemma TrimmedCleanAt(raw: seq<seq<string>>, j: nat)
    ensures |TrimmedRows(CleanRows(raw))| == |raw|
    ensures j < |raw| ==> TrimmedRows(CleanRows(raw))[j] == TrimEmptyTail(MergeFragments(CleanCells(raw[j])))
  {
  }

  /** One row per data row; every row is empty or ends in a non-empty cell and holds the words
    * of its cells, in order, up to the empty cells dropped from its end; the header row holds
    * the words of its cells and is empty only when there were no header cells. */
  lemma {:induction false} NormalizeCleanedShape(headers: seq<string>, rows: seq<seq<string>>)
    ensures var r := NormalizeCleaned(headers, rows);
      && |r.rows| == |rows|
      && (forall k :: 0 <= k < |r.rows| ==> r.rows[k] == [] || r.rows[k][|r.rows[k]| - 1] != [])
      && (forall k :: 0 <= k < |r.rows| ==> r.rows[k] <= MergeFragments(rows[k]))
      && WordsOf(r.headers) == WordsOf(headers)
      && |r.headers| <= |headers|
      && (r.headers == [] <==> headers == [])
  {
    var r := NormalizeCleaned(headers, rows);
    assert r.headers == MergeFragments(headers) && r.rows == TrimmedRows(rows);
    MergeFragmentsKeepsWords(headers);
    TrimmedRowsShape(rows);
  }

  lemma TrimmedRowsShape(rows: seq<seq<string>>)
    ensures |TrimmedRows(rows)| == |rows|
    ensures forall k :: 0 <= k < |rows| ==>
      var t := TrimmedRows(rows)[k];
      (t == [] || t[|t| - 1] != []) && t <= MergeFragments(rows[k])
  {
    forall k | 0 <= k < |rows|
      ensures var t := TrimmedRows(rows)[k]; (t == [] || t[|t| - 1] != []) && t <= MergeFragments(rows[k])
    {
      assert TrimmedRows(rows)[k] == TrimEmptyTail(MergeFragments(rows[k]));
    }
  }

  /** The dropped cells are empty, so a row keeps the words of its cells. */
  lemma {:induction false} TrimEmptyTailKeepsWords(row: seq<string>)
    ensures WordsOf(TrimEmptyTail(row)) == WordsOf(row)
    decreases |row|
  {
    if row != [] && row[|row| - 1] == [] {
      var init := row[..|row| - 1];
      TrimEmptyTailKeepsWords(init);
      InitLast(row);
      WordsOfAppend(init, [[]]);
      assert WordsOf([[]]) == [];
    }
  }

  lemma {:induction false} WordsOfAppend(a: seq<string>, b: seq<string>)
    ensures WordsOf(a + b) == WordsOf(a) + WordsOf(b)
    decreases |a|
  {
    if a != [] {
      WordsOfAppend(a[1..], b);
      assert (a + b)[1..] == a[1..] + b;
    } else {
      assert a + b == b;
    }
  }

  /** A data row of `normalize_table` holds the words of its cleaned cells, in order. */
  lemma RowKeepsWords(row: seq<string>)
    ensures WordsOf(TrimEmptyTail(MergeFragments(row))) == WordsOf(row)
  {
    MergeFragmentsKeepsWords(row);
    TrimEmptyTailKeepsWords(MergeFragments(row));
  }

  /** The header row is never trimmed: when no merge applies, every cleaned header cell is kept,
    * an empty last one included. */
  lemma HeadersNotTrimmed(headers: seq<string>)
    requires headers != []
    requires forall k :: 0 <= k < |headers| - 1 ==> !ShouldMerge(headers[k], headers[k + 1])
    ensures NormalizeCleaned(headers, []).headers == headers
  {
    NoMergeFromAll(headers, 0);
    MergeCellsNoMerge(headers, 0);
    assert headers[0..] == headers;
  }

  /** Merging chains: a merged cell is examined again against the cell after it. */
  lemma MergeChains(a: string, b: string, c: string)
    requires ShouldMerge(a, b) && ShouldMerge(Joined(a, b), c)
    ensures MergeFragments([a, b, c]) == [Joined(Joined(a, b), c)]
  {
    assert [a, b, c][1..] == [b, c];
    assert [b, c][1..] == [c];
    assert MergeCells(Joined(a, b), [c]) == MergeCells(Joined(Joined(a, b), c), []);
    assert MergeCells(a, [b, c]) == MergeCells(Joined(a, b), [c]);
  }

  /** The header `["12", "3%Yo", "Y"]` becomes one cell: the two short cells merge first, and
    * the joined cell `"12 3%Yo"` then merges with `"Y"` by the percent-split rule. */
  lemma PercentSplitExample()
    ensures MergeFragments(["12", "3%Yo", "Y"]) == ["12 3%Yo Y"]
  {
    PercentSplitExampleOf("12", "3%Yo", "Y", "12 3%Yo");
    assert "12 3%Yo" + " " + "Y" == "12 3%Yo Y";
  }

  lemma PercentSplitExampleOf(a: string, b: string, c: string, ab: string)
    requires a == "12" && b == "3%Yo" && c == "Y" && ab == "12 3%Yo"
    ensures MergeFragments([a, b, c]) == [ab + " " + c]
  {
    ShortCellsMerge(a, b, ab);
    PercentCellsMerge(ab, c);
    MergeChains(a, b, c);
  }

  /** `"12"` and `"3%Yo"` are both short, so they merge into `"12 3%Yo"`. */
  lemma ShortCellsMerge(a: string, b: string, ab: string)
    requires a == "12" && b == "3%Yo" && ab == "12 3%Yo"
    ensures ShouldMerge(a, b) && Joined(a, b) == ab && EndsWith(ab, "%Yo") && !IsSpace(ab[0])
  {
    assert ab[|ab| - 3..] == "%Yo";
    assert ab == a + " " + b;
    assert ab[0] == '1' && ab[|ab| - 1] == 'o';
    JoinedTrimmed(a, b, ab);
  }

  /** A cell ending in `%Yo` merges with a following `"Y"`. */
  lemma PercentCellsMerge(ab: string, c: string)
    requires EndsWith(ab, "%Yo") && c == "Y" && ab != [] && !IsSpace(ab[0])
    ensures ShouldMerge(ab, c) && Joined(ab, c) == ab + " " + c
  {
    var abc := ab + " " + c;
    assert Trimmed(ab);
    assert Trimmed(c);
    assert abc[0] == ab[0] && abc[|abc| - 1] == 'Y';
    JoinedTrimmed(ab, c, abc);
  }

  lemma JoinedTrimmed(x: string, y: string, xy: string)
    requires xy == x + " " + y && xy != [] && !IsSpace(xy[0]) && !IsSpace(xy[|xy| - 1])
    ensures Joined(x, y) == xy
  {
  }

  // ---------------------------------------------------------------------------
  // Per-page deduplication in extract_tables (parse_factsheet.py:256-284)
  // ---------------------------------------------------------------------------

  /** A table as the extraction library yields it: rows of cells, a cell perhaps missing. */
  type Grid = seq<seq<Option<string>>>

  /** `cell is None or str(cell).strip() == ""`: a missing cell or one of whitespace only. */
  predicate BlankCell(c: Option<string>) {
    c.None? || forall k :: 0 <= k < |c.value| ==> IsSpace(c.value[k])
  }

  /** A cell is blank exactly when stripping leaves nothing. */
  lemma BlankCellStrips(c: Option<string>)
    ensures BlankCell(c) <==> c.None? || Strip(c.value) == []
  {
  }

  /** `all(cell is None or str(cell).strip() == "" ...)`: true of the empty grid as well. */
  predicate IsBlankGrid(g: Grid) {
    forall i, j :: 0 <= i < |g| && 0 <= j < |g[i]| ==> BlankCell(g[i][j])
  }

  /** `[cell if cell is not None else "" for cell in row]`. */
  function RowText(row: seq<Option<string>>): (r: seq<string>)
    ensures |r| == |row|
    ensures forall k :: 0 <= k < |row| ==> r[k] == row[k].GetOr("")
  {
    seq(|row|, k requires 0 <= k < |row| => row[k].GetOr(""))
  }

  /** The first row of the grid is the header, the others are the data rows. */
  function RawOf(g: Grid): RawTable
    requires g != []
  {
    RawTable(RowText(g[0]), seq(|g| - 1, k requires 0 <= k < |g| - 1 => RowText(g[k + 1])))
  }

  /** The tables the grids contribute, in order: blank grids are skipped and the others go
    * through `normalize` (which `extract_tables` fixes to `normalize_table`). */
  function Candidates(grids: seq<Grid>, normalize: RawTable -> Table): (r: seq<Table>)
    ensures |r| <= |grids|
  {
    if grids == [] then []
    else
      var g := grids[|grids| - 1];
      Candidates(grids[..|grids| - 1], normalize) + (if IsBlankGrid(g) then [] else [normalize(RawOf(g))])
  }

  /** `(tuple(norm["headers"]), len(norm["rows"]))`. */
  datatype TableKey = TableKey(headers: seq<string>, rowCount: nat)

  function KeyOf(t: Table): TableKey {
    TableKey(t.headers, |t.rows|)
  }

  function Keys(ts: seq<Table>): set<TableKey> {
    if ts == [] then {} else Keys(ts[..|ts| - 1]) + {KeyOf(ts[|ts| - 1])}
  }

  lemma {:induction false} KeysMember(ts: seq<Table>, key: TableKey)
    ensures key in Keys(ts) <==> exists k :: 0 <= k < |ts| && KeyOf(ts[k]) == key
  {
    if ts != [] {
      var init := ts[..|ts| - 1];
      KeysMember(init, key);
      if key in Keys(init) {
        var k :| 0 <= k < |init| && KeyOf(init[k]) == key;
        assert ts[k] == init[k];
      }
      if exists k :: 0 <= k < |ts| && KeyOf(ts[k]) == key {
        var k :| 0 <= k < |ts| && KeyOf(ts[k]) == key;
        if k < |init| {
          assert ts[k] == init[k];
        }
      }
    }
  }

  lemma KeysSnoc(ts: seq<Table>, t: Table)
    ensures Keys(ts + [t]) == Keys(ts) + {KeyOf(t)}
  {
    PrefixOfSnoc(ts, t);
  }

  /** The tables kept: a table is dropped when an earlier one had its key. */
  function KeptOf(ts: seq<Table>): seq<Table> {
    if ts == [] then []
    else
      var kept := KeptOf(ts[..|ts| - 1]);
      var t := ts[|ts| - 1];
      if KeyOf(t) in Keys(kept) then kept else kept + [t]
  }

  lemma KeptOfSnoc(ts: seq<Table>, t: Table)
    ensures KeptOf(ts + [t]) == if KeyOf(t) in Keys(KeptOf(ts)) then KeptOf(ts) else KeptOf(ts) + [t]
  {
    PrefixOfSnoc(ts, t);
  }

  predicate DistinctKeys(ts: seq<Table>) {
    forall i, j :: 0 <= i < j < |ts| ==> KeyOf(ts[i]) != KeyOf(ts[j])
  }

  /** No two kept tables share a key, and every key of the input is the key of a kept table. */
  lemma {:induction false} KeptOfKeys(ts: seq<Table>)
    ensures DistinctKeys(KeptOf(ts))
    ensures Keys(KeptOf(ts)) == Keys(ts)
  {
    if ts != [] {
      var init := ts[..|ts| - 1];
      var t := ts[|ts| - 1];
      KeptOfKeys(init);
      InitLast(ts);
      KeptOfSnoc(init, t);
      var kept := KeptOf(init);
      if KeyOf(t) !in Keys(kept) {
        KeysSnoc(kept, t);
        KeysMember(kept, KeyOf(t));
        forall i, j | 0 <= i < j < |kept + [t]| ensures KeyOf((kept + [t])[i]) != KeyOf((kept + [t])[j]) {
          if j == |kept| {
            assert (kept + [t])[i] == kept[i];
          } else {
            assert (kept + [t])[i] == kept[i] && (kept + [t])[j] == kept[j];
          }
        }
      }
    }
  }

  /** A table is the first of its key when no earlier table has the same key. */
  predicate FirstOfKey(ts: seq<Table>, i: int)
    requires 0 <= i < |ts|
  {
    forall j :: 0 <= j < i ==> KeyOf(ts[j]) != KeyOf(ts[i])
  }

  /** Kept tables are exactly the first tables of their keys, in their original order: the
    * kept sequence is the input restricted to the indices `FirstOfKey` selects. */
  function Firsts(ts: seq<Table>, n: nat): seq<Table>
    requires n <= |ts|
  {
    if n == 0 then [] else Firsts(ts, n - 1) + (if FirstOfKey(ts, n - 1) then [ts[n - 1]] else [])
  }

  lemma {:induction false} KeptOfIsFirsts(ts: seq<Table>)
    ensures KeptOf(ts) == Firsts(ts, |ts|)
  {
    if ts != [] {
      var n := |ts| - 1;
      var init := ts[..n];
      KeptOfIsFirsts(init);
      FirstsOfPrefix(ts, n);
      KeptOfKeys(init);
      InitLast(ts);
      KeptOfSnoc(init, ts[n]);
      KeysMember(init, KeyOf(ts[n]));
      if FirstOfKey(ts, n) {
        assert KeyOf(ts[n]) !in Keys(init) by {
          forall k | 0 <= k < |init| ensures KeyOf(init[k]) != KeyOf(ts[n]) {
            assert init[k] == ts[k];
          }
        }
      } else {
        var j :| 0 <= j < n && KeyOf(ts[j]) == KeyOf(ts[n]);
        assert init[j] == ts[j];
      }
    }
  }

  lemma {:induction false} FirstsOfPrefix(ts: seq<Table>, n: nat)
    requires n <= |ts|
    ensures Firsts(ts[..n], n) == Firsts(ts, n)
    decreases n
  {
    if n > 0 {
      FirstsOfPrefix(ts, n - 1);
      FirstsOfPrefix(ts[..n], n - 1);
      assert ts[..n][..n - 1] == ts[..n - 1];
      assert FirstOfKey(ts[..n], n - 1) == FirstOfKey(ts, n - 1) by {
        assert forall j :: 0 <= j < n ==> ts[..n][j] == ts[j];
      }
    }
  }

  /** Tables found by the first strategy are kept whatever the second strategy finds. */
  lemma {:induction false} KeptOfPrefix(a: seq<Table>, b: seq<Table>)
    ensures KeptOf(a) <= KeptOf(a + b)
    decreases |b|
  {
    if b != [] {
      var init := b[..|b| - 1];
      KeptOfPrefix(a, init);
      AppendAssoc(a, init, b[|b| - 1]);
      InitLast(b);
      KeptOfSnoc(a + init, b[|b| - 1]);
    } else {
      TakeAll(a);
    }
  }

  /** What keeping `t` does to the tables kept so far. */
  function KeepStep(kept: seq<Table>, t: Table): seq<Table> {
    if KeyOf(t) in Keys(kept) then kept else kept + [t]
  }

  /** The tables kept after `grids`, when `kept` were kept before them: a blank grid is
    * skipped, any other is normalised and kept when its key is new. */
  function KeptFrom(kept: seq<Table>, grids: seq<Grid>, normalize: RawTable -> Table): seq<Table> {
    if grids == [] then kept
    else
      var before := KeptFrom(kept, grids[..|grids| - 1], normalize);
      var g := grids[|grids| - 1];
      if IsBlankGrid(g) then before else KeepStep(before, normalize(RawOf(g)))
  }

  /** The tables `extract_tables` keeps for one page, given what the `lines` and the `text`
    * strategies returned (an exception counting as no tables). */
  function PageTables(lines: seq<Grid>, text: seq<Grid>, normalize: RawTable -> Table): seq<Table> {
    KeptFrom(KeptFrom([], lines, normalize), text, normalize)
  }

  lemma CandidatesSnoc(grids: seq<Grid>, g: Grid, normalize: RawTable -> Table)
    ensures IsBlankGrid(g) ==> Candidates(grids + [g], normalize) == Candidates(grids, normalize)
    ensures !IsBlankGrid(g) ==>
      Candidates(grids + [g], normalize) == Candidates(grids, normalize) + [normalize(RawOf(g))]
  {
    PrefixOfSnoc(grids, g);
    if IsBlankGrid(g) {
      TakeAll(Candidates(grids, normalize));
    }
  }

  /** The candidates of two grid lists, one after the other, are those of each in turn. */
  lemma {:induction false} CandidatesAppend(a: seq<Grid>, b: seq<Grid>, normalize: RawTable -> Table)
    ensures Candidates(a + b, normalize) == Candidates(a, normalize) + Candidates(b, normalize)
    decreases |b|
  {
    if b == [] {
      TakeAll(a);
      TakeAll(Candidates(a, normalize));
    } else {
      var init := b[..|b| - 1];
      var g := b[|b| - 1];
      CandidatesAppend(a, init, normalize);
      InitLast(b);
      AppendAssoc(a, init, g);
      CandidatesSnoc(a + init, g, normalize);
      CandidatesSnoc(init, g, normalize);
    }
  }

  /** One more grid: a blank grid changes nothing, any other is normalised and kept if new. */
  lemma KeptCandidatesSnoc(grids: seq<Grid>, g: Grid, normalize: RawTable -> Table)
    ensures KeptOf(Candidates(grids + [g], normalize))
      == if IsBlankGrid(g) then KeptOf(Candidates(grids, normalize))
         else KeepStep(KeptOf(Candidates(grids, normalize)), normalize(RawOf(g)))
  {
    CandidatesSnoc(grids, g, normalize);
    if !IsBlankGrid(g) {
      KeptOfSnoc(Candidates(grids, normalize), normalize(RawOf(g)));
    }
  }

  /** Folding over more grids from the tables kept so far is keeping over all the candidates. */
  lemma {:induction false} KeptFromCandidates(done: seq<Grid>, grids: seq<Grid>, normalize: RawTable -> Table)
    ensures KeptFrom(KeptOf(Candidates(done, normalize)), grids, normalize)
      == KeptOf(Candidates(done + grids, normalize))
    decreases |grids|
  {
    if grids == [] {
      TakeAll(done);
    } else {
      var init := grids[..|grids| - 1];
      var g := grids[|grids| - 1];
      KeptFromCandidates(done, init, normalize);
      InitLast(grids);
      AppendAssoc(done, init, g);
      KeptCandidatesSnoc(done + init, g, normalize);
    }
  }

  /** A page's tables are the first candidate of each key in first-seen order, across both
    * strategies: no two share a key, every key found is kept, and the tables the `lines`
    * strategy keeps come first. */
  lemma PageTablesFirstSeen(lines: seq<Grid>, text: seq<Grid>, normalize: RawTable -> Table)
    ensures PageTables(lines, text, normalize) == KeptOf(Candidates(lines + text, normalize))
    ensures PageTables(lines, text, normalize)
      == Firsts(Candidates(lines + text, normalize), |Candidates(lines + text, normalize)|)
    ensures DistinctKeys(PageTables(lines, text, normalize))
    ensures Keys(PageTables(lines, text, normalize)) == Keys(Candidates(lines + text, normalize))
    ensures KeptOf(Candidates(lines, normalize)) <= PageTables(lines, text, normalize)
  {
    var all := Candidates(lines + text, normalize);
    assert Candidates([], normalize) == [];
    assert [] + lines == lines;
    KeptFromCandidates([], lines, normalize);
    KeptFromCandidates(lines, text, normalize);
    KeptOfIsFirsts(all);
    KeptOfKeys(all);
    CandidatesAppend(lines, text, normalize);
    KeptOfPrefix(Candidates(lines, normalize), Candidates(text, normalize));
  }

  /** The body of the inner loop of `extract_tables` for one grid. */
  method ConsiderGrid(pageTables0: seq<Table>, seen0: set<TableKey>, tbl: Grid, normalize: RawTable -> Table)
    returns (pageTables: seq<Table>, seen: set<TableKey>)
    requires seen0 == Keys(pageTables0)
    ensures pageTables == if IsBlankGrid(tbl) then pageTables0 else KeepStep(pageTables0, normalize(RawOf(tbl)))
    ensures seen == Keys(pageTables)
  {
    pageTables, seen := pageTables0, seen0;
    if IsBlankGrid(tbl) {
      return;
    }
    var norm := normalize(RawOf(tbl));
    var key := KeyOf(norm);
    if key in seen {
      return;
    }
    seen := seen + {key};
    pageTables := pageTables + [norm];
    KeysSnoc(pageTables0, norm);
  }

  /** One strategy's tables: the inner loop of `extract_tables` with its `seen_keys` set. */
  method KeepNewTables(pageTables0: seq<Table>, seen0: set<TableKey>, tables: seq<Grid>,
                       normalize: RawTable -> Table)
    returns (pageTables: seq<Table>, seen: set<TableKey>)
    requires seen0 == Keys(pageTables0)
    ensures pageTables == KeptFrom(pageTables0, tables, normalize)
    ensures seen == Keys(pageTables)
  {
    pageTables, seen := pageTables0, seen0;
    for j := 0 to |tables|
      invariant pageTables == KeptFrom(pageTables0, tables[..j], normalize)
      invariant seen == Keys(pageTables)
    {
      assert tables[..j + 1][..j] == tables[..j];
      pageTables, seen := ConsiderGrid(pageTables, seen, tables[j], normalize);
    }
    assert tables[..|tables|] == tables;
  }

  /** The tables of one page: the `lines` strategy first, then the `text` strategy. */
  method ExtractPageTables(lines: seq<Grid>, text: seq<Grid>, normalize: RawTable -> Table)
    returns (pageTables: seq<Table>)
    ensures pageTables == PageTables(lines, text, normalize)
  {
    var seen: set<TableKey>;
    pageTables, seen := KeepNewTables([], {}, lines, normalize);
    pageTables, seen := KeepNewTables(pageTables, seen, text, normalize);
  }

  /** What the two strategies found on one page. */
  datatype PageGrids = PageGrids(lines: seq<Grid>, text: seq<Grid>)

  /** The loop of `extract_tables` over the pages, for any normaliser: pages are keyed from 0,
    * and a page appears only when a table is kept. */
  method TablesByPage(pages: seq<PageGrids>, normalize: RawTable -> Table) returns (byPage: map<nat, seq<Table>>)
    ensures forall i: nat :: i in byPage <==> i < |pages| && PageTables(pages[i].lines, pages[i].text, normalize) != []
    ensures forall i: nat :: i in byPage ==> byPage[i] == PageTables(pages[i].lines, pages[i].text, normalize)
  {
    byPage := map[];
    ghost var want := seq(|pages|, p requires 0 <= p < |pages| => PageTables(pages[p].lines, pages[p].text, normalize));
    for i := 0 to |pages|
      invariant forall p: nat :: p in byPage <==> p < i && want[p] != []
      invariant forall p: nat :: p in byPage ==> byPage[p] == want[p]
    {
      var pageTables := ExtractPageTables(pages[i].lines, pages[i].text, normalize);
      if pageTables != [] {
        byPage := byPage[i := pageTables];
      }
    }
  }

  /** `extract_tables`, every table going through `normalize_table`. */
  method ExtractTables(pages: seq<PageGrids>) returns (byPage: map<nat, seq<Table>>)
    ensures forall i: nat :: i in byPage <==> i < |pages| && PageTables(pages[i].lines, pages[i].text, NormalizedTable) != []
    ensures forall i: nat :: i in byPage ==> byPage[i] == PageTables(pages[i].lines, pages[i].text, NormalizedTable)
  {
    byPage := TablesByPage(pages, NormalizedTable);
  }
}
