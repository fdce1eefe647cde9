# Factsheet parser core, modelled in Dafny

`parse_factsheet.py` turns a mutual-fund factsheet PDF into one record per document. The
record holds the fund's metadata and, for every page, a list of typed content items:
headings, paragraphs, tables and chart placeholders. Each item carries the section and
sub-section it belongs to.

This project models the deterministic part of that pipeline on plain data. The PDF and
table libraries are left out.

- **Text normaliser (`Text`).** `clean_text` is modelled as tab and odd-blank replacement,
  hyphen-break join, whitespace collapse, three de-gluing rewrites and a final strip.
  `fix_glued_domain_terms` is its nine word-bounded, case-insensitive substitutions.
  `is_noise` covers the boilerplate phrases and the page-number lines. Every regular
  expression is written out as a left-to-right scan that follows `re.sub` / `re.search`.
  The blank `\s` is Python's `str.isspace` set.
- **Heading classifier (`Headings`).** `classify_spans_as_headings` labels each span with
  non-empty cleaned text. A span is a heading when its size is at least 11.0 (a missing
  size counts as 10.0), or when its text is upper-case with at most six words.
- **Page assembler (`Assembler`, class `PageAssembler`).** This is the block loop of
  `group_page_content`:
  - blocks are sorted by `(y0, x0)`;
  - consecutive spans with the same label are buffered and pushed as one text;
  - `push_text` tracks `current_section` and `current_sub`, and splits body text longer
    than 600 characters into sentences;
  - one chart placeholder is added per image.
- **Table normaliser and deduplicator (`Tables`).**
  - `normalize_table` cleans every cell and merges fragments with `merge_fragments`, which
    rewrites `row[i + 1]` in place, so merges chain. It then drops trailing empty cells
    from data rows.
  - The per-page loop of `extract_tables` skips blank grids. It keeps the first table for
    each `(headers, row count)` key, taking the `lines` strategy before the `text` one.
- **Content merger (`Merger`).** `merge_tables_into_pages` appends one table item per table
  of a page. It then sorts the page's content stably by `(type order, y)`; an item without
  a bbox gets y = 1e9.
- **Metadata extractor (`Metadata`, class `MetadataExtractor`).** This is the fold of
  `extract_fund_metadata_from_content`:
  - the document date comes from the cover text;
  - the fund name and category are found by their guards;
  - each labelled value is set only while its field is falsy;
  - managers are de-duplicated through `seen_managers` and the `buffer` string.
- **Support modules.** `StableSort` models Python's `sorted`, `CharClass` holds the
  character classes, and `Content` holds the data model with the `Page` class.

Where the method is imperative, the model is imperative too. Methods with loops are proved
against specification functions, and the properties are proved as lemmas about those
functions.

Behaviour of the code worth noting:
- **Merges chain.** `merge_fragments` chains merges: a merged cell is compared again with
  the next one. So the header `["12", "3%Yo", "Y"]` becomes the single cell `"12 3%Yo Y"`,
  not `["12", "3%Yo Y"]` (`Tables.PercentSplitExample`, `Tables.MergeChains`).
- **`clean_text` is not idempotent.** `"a- b- c"` cleans to `"ab- c"`, and cleaning that
  again gives `"abc"` (`Text.CleanTextNotIdempotent`).
- **The `Mr.` continuation never fires.** The branch at parse_factsheet.py:417-428 is dead
  code: the buffer is emptied at line 414 right after it is filled at line 404
  (`Metadata.ContinuationNeverFires`). In the code the buffer is always empty between items.

## Model

| member | source | states |
|---|---|---|
| Text.Strip | parse_factsheet.py:61 | `str.strip()` is the longest slice of the text with no whitespace at either end; a trimmed text is unchanged; the result is empty exactly when the text is all whitespace |
| Text.StripStart | parse_factsheet.py:61 | the result is a suffix of the text, does not start with whitespace, and only whitespace was removed |
| Text.StripEnd | parse_factsheet.py:61 | the result is a prefix of the text, does not end with whitespace, and only whitespace was removed |
| Text.WordsShape | parse_factsheet.py:123 | `split()` yields non-empty runs without whitespace, and yields none exactly when the text is all whitespace |
| Text.WordsAroundSpace | parse_factsheet.py:183 | the words of `a + " " + b` are the words of `a` followed by those of `b` |
| Text.StripKeepsWords | parse_factsheet.py:343 | stripping a text keeps its words |
| Text.WordsAfterSpaces | parse_factsheet.py:343 | leading whitespace adds no words |
| Text.WordsBeforeSpaces | parse_factsheet.py:343 | trailing whitespace adds no words |
| Text.BlankOddSpaces | parse_factsheet.py:47-48 | tab, U+00A0, U+2007 and U+202F become a plain space; every other character is kept |
| Text.JoinHyphenated | parse_factsheet.py:51 | the hyphen-break join never lengthens the text |
| Text.CollapseWhitespace | parse_factsheet.py:54 | each whitespace run becomes one plain space: only the empty text gives the empty result, the result starts with a space exactly when the text starts with whitespace, and it never has non-plain or doubled spaces |
| Text.CollapseKeepsWords | parse_factsheet.py:54 | collapsing whitespace keeps the words of the text: the same words, in the same order |
| Text.CollapseWellSpaced | parse_factsheet.py:54 | collapsing leaves text with single plain spaces unchanged |
| Text.SplitGlued | parse_factsheet.py:57-59 | a de-gluing rewrite keeps the first and last characters, adds no non-plain whitespace and creates no doubled space |
| Text.SplitGluedUnglued | parse_factsheet.py:57-59 | a de-gluing rewrite leaves text without a glued pair unchanged |
| Text.CleanTextNormalized | parse_factsheet.py:41-61 | `clean_text` maps empty text to `""`, and its output has only plain spaces, never two in a row and none at either end |
| Text.CleanTextSettled | parse_factsheet.py:41-61 | when the hyphen join is the only rewrite that changes a text, `clean_text` returns the joined text |
| Text.CleanTextNotIdempotent | parse_factsheet.py:51 | `clean_text("a- b- c") == "ab- c"`, and cleaning it again gives `"abc"` |
| Text.FirstBreakJoined | parse_factsheet.py:51 | the join rewrites `"a- b- c"` to `"ab- c"` because the consumed `b` cannot start the second match |
| Text.SecondBreakJoined | parse_factsheet.py:51 | the join rewrites `"ab- c"` to `"abc"` |
| Text.StripKeepsSpacing | parse_factsheet.py:61 | stripping well-spaced text gives normalised text |
| Text.LettersLower | parse_factsheet.py:86 | `re.sub(r"[^A-Za-z]", "", s).lower()` is no longer than the text and holds lower-case letters only |
| Text.LettersLowerAppend | parse_factsheet.py:86 | the letters of a concatenation are the letters of its parts |
| Text.FirstAlt | parse_factsheet.py:78-79 | the alternative chosen at a position is the first one that matches there and is followed by a word boundary; none before it qualifies |
| Text.ReplaceAt | parse_factsheet.py:78-79 | every step of the substitution scan makes progress within the text |
| Text.ReplaceWordsKeepsLetters | parse_factsheet.py:78-79 | a case-insensitive substitution whose replacement spells the letters of what it replaces keeps the lower-cased letters of the text |
| Text.ReplaceWordsKeepsSpacing | parse_factsheet.py:78-79 | a substitution of letter words by spaced letter words keeps the text well spaced, empty exactly when it was, and starting and ending with a space exactly when it did |
| Text.ReplaceWordsNormalized | parse_factsheet.py:78-79 | such a substitution keeps normalised text normalised |
| Text.GluedFixesAreLetterWords | parse_factsheet.py:67-77 | every replacement of the fix table consists of non-empty letter words |
| Text.JoinedWordsLetters | parse_factsheet.py:67-77 | each replacement has the lower-cased letters of its pattern |
| Text.JoinedWordsShape | parse_factsheet.py:67-77 | each replacement is normalised text that starts and ends with a letter |
| Text.FixStepKeeps | parse_factsheet.py:79 | one substitution keeps the lower-cased letters and keeps normalised text normalised |
| Text.ApplyFixesKeeps | parse_factsheet.py:78-80 | the substitutions applied in order keep the letters and the shape |
| Text.FixGluedKeepsLettersAndShape | parse_factsheet.py:63-80 | `fix_glued_domain_terms` never changes the lower-cased letters of the text and keeps `clean_text` output in its shape |
| Text.Cleaned | parse_factsheet.py:146-147 | `fix_glued_domain_terms(clean_text(t))` is normalised text |
| Text.NoiseInContext | parse_factsheet.py:82-97 | text whose letters contain a boilerplate phrase, or which mentions `Page <digits>`, is noise whatever text surrounds it |
| Text.ContainsInContext | parse_factsheet.py:91 | a substring stays a substring with text added on either side |
| Text.FixGluedKeepsBoilerplate | parse_factsheet.py:63-92 | fixing glued terms neither creates nor removes boilerplate |
| Text.SkipDigits | parse_factsheet.py:93-95 | the scan over `\d+` stops at the first non-digit |
| Headings.LabelOne | parse_factsheet.py:119-126 | a span yields at most one label |
| Headings.LabelSpans | parse_factsheet.py:115-127 | there are never more labels than spans |
| Headings.NonBlank | parse_factsheet.py:119-121 | the kept spans are exactly the spans with non-empty cleaned text, never more than the input |
| Headings.LabelSpansFilterMap | parse_factsheet.py:115-127 | labelling is a filter-map: one label per non-blank span, in order, the k-th labelling the k-th non-blank span and saying heading exactly when the size or all-caps rule holds |
| Headings.LabelSpansCorrect | parse_factsheet.py:115-127 | every label produced is correct |
| Headings.LabelSpansAppend | parse_factsheet.py:117-118 | labelling distributes over concatenation: nothing is reordered, merged or labelled twice |
| Headings.LowerCaseHeadingBySize | parse_factsheet.py:122-123 | a span with a lower-case letter is a heading exactly when its size, 10.0 if missing, is at least 11.0 |
| StableSort.SortBy | parse_factsheet.py:303 | `sorted` keeps the number of elements |
| StableSort.SortBySortedPermutation | parse_factsheet.py:303 | `sorted` orders by key and is a permutation |
| StableSort.SortByStable | parse_factsheet.py:303 | `sorted` is stable: the elements sharing a key keep their relative order |
| Assembler.SplitFrom | parse_factsheet.py:160 | `re.split` always yields at least one piece |
| Assembler.FirstPiece | parse_factsheet.py:160 | the first piece runs from the start to the first separator at or after the scan position, or to the end of the text, and the remaining pieces are split from the first character after that separator |
| Assembler.SplitCuts | parse_factsheet.py:160 | the split cuts only at sentence boundaries and at all of them: every piece but the last ends with `.`, `!` or `?`, every piece but the first starts with an upper-case letter, and no piece has a separator inside it |
| Assembler.KeepParts | parse_factsheet.py:161-163 | no more paragraphs than parts |
| Assembler.KeepPartsTrimmed | parse_factsheet.py:161-163 | every kept part is non-empty and stripped |
| Assembler.KeepPartsOfTrimmed | parse_factsheet.py:161-163 | parts already non-empty and stripped are all kept, in order |
| Assembler.BoundaryInNormalized | parse_factsheet.py:160 | in normalised text a sentence separator is exactly one space |
| Assembler.SplitFromNormalized | parse_factsheet.py:160 | the sentence pieces of normalised text are non-empty and trimmed, and joined with single spaces give back the text |
| Assembler.ParagraphsRejoin | parse_factsheet.py:159-166 | a body run of at most 600 characters gives one paragraph equal to its text; a longer one gives exactly the pieces of the sentence split (whose cut points `Assembler.SplitCuts` states), each non-empty and trimmed, which rejoin to the text |
| Assembler.ParagraphItems | parse_factsheet.py:164 | one paragraph item per text |
| Assembler.PushStepWellSectioned | parse_factsheet.py:142-166 | `push_text` keeps the page well sectioned: the first heading sets the section with no sub-section, later headings keep it and set the sub-section, and paragraphs carry the current pair |
| Assembler.PushCleanedWellSectioned | parse_factsheet.py:148-166 | the same for the text after cleaning |
| Assembler.PushStepExtends | parse_factsheet.py:142-166 | `push_text` only appends items and never changes a section once set; empty or noise text changes nothing |
| Assembler.PushCleanedExtends | parse_factsheet.py:148-166 | the same for the text after cleaning |
| Assembler.AppendParagraphs | parse_factsheet.py:161-166 | appending paragraphs in the current section and sub-section keeps the page well sectioned |
| Assembler.AddTextExpands | parse_factsheet.py:174-187 | buffering a span adds exactly its labelled text, or nothing when the text is empty |
| Assembler.AddTextAlternates | parse_factsheet.py:179-187 | buffering keeps runs maximal: neighbouring runs have different labels and none is empty |
| Assembler.RunsOfGroups | parse_factsheet.py:174-189 | the pushed runs spell out exactly the labelled spans with non-empty text, in order, and are maximal |
| Assembler.PushRunsWellSectioned | parse_factsheet.py:183-189 | pushing the runs of a block keeps the page well sectioned |
| Assembler.BlocksFoldWellSectioned | parse_factsheet.py:169-189 | the block loop keeps the page well sectioned |
| Assembler.WithChartsWellSectioned | parse_factsheet.py:192-201 | one placeholder per image is appended, each carrying the current section and sub-section, which stay the same |
| Assembler.AssembledPageWellSectioned | parse_factsheet.py:138-203 | on every assembled page each item carries the section and sub-section its preceding headings establish |
| Assembler.BlocksInReadingOrder | parse_factsheet.py:136 | blocks are taken top to bottom, then left to right, as a permutation, with equal positions in their original order |
| Assembler.AppendParagraphsOf | parse_factsheet.py:161-164 | the loop over the parts appends one paragraph per non-empty stripped part, in order |
| Assembler.PageAssembler.constructor | parse_factsheet.py:138-140 | no items, no section, no sub-section |
| Assembler.PageAssembler.PushText | parse_factsheet.py:142-166 | the assembler's new state is the `push_text` step |
| Assembler.PageAssembler.PushCleanedText | parse_factsheet.py:148-166 | the new state is the step for the cleaned text |
| Assembler.PageAssembler.AppendParts | parse_factsheet.py:160-164 | one paragraph per kept part in the current context; section and sub-section unchanged |
| Assembler.PageAssembler.AddBlock | parse_factsheet.py:169-189 | the new state is one block-loop step |
| Assembler.PageAssembler.AddLabels | parse_factsheet.py:174-189 | the span loop pushes exactly the runs of the labels |
| Assembler.PageAssembler.AddSpan | parse_factsheet.py:175-187 | one span updates the buffer as the run grouping says and pushes a closed run |
| Assembler.PageAssembler.Flush | parse_factsheet.py:188-189 | a non-empty buffer is pushed at the end of the block |
| Assembler.PageAssembler.AddCharts | parse_factsheet.py:192-201 | one placeholder per image |
| Assembler.AssemblePage | parse_factsheet.py:135-203 | the page's items are those of the specified assembly |
| Assembler.GroupPageContent | parse_factsheet.py:132-206 | page `i` is a new, distinct object numbered `i + 1`, holding the assembled content of its input |
| Assembler.MakePages | parse_factsheet.py:205 | one new page per content list, numbered from 1 |
| Assembler.AssembleAll | parse_factsheet.py:134-205 | the content of every page, in page order |
| Tables.CleanCellNormalized | parse_factsheet.py:212-218 | a cleaned cell is normalised text |
| Tables.CleanCellsNormalized | parse_factsheet.py:220 | one cleaned cell per raw cell, each normalised |
| Tables.MergeFragmentsLoop | parse_factsheet.py:222-238 | the in-place `while` loop computes `merge_fragments` |
| Tables.MergeCellsKeepsWords | parse_factsheet.py:222-238 | merging from a cell emits between one and `1 + rest` cells and keeps the words in order |
| Tables.MergeFragmentsKeepsWords | parse_factsheet.py:222-238 | `merge_fragments` never returns more cells than it got, returns `[]` exactly for `[]`, and neither loses, adds nor reorders words |
| Tables.MergeCellsNoMerge | parse_factsheet.py:222-238 | cells that never trigger a merge come out unchanged |
| Tables.MergeChains | parse_factsheet.py:233-235 | a merged cell is examined again, so three cells can become one |
| Tables.PercentSplitExample | parse_factsheet.py:229-235 | `["12", "3%Yo", "Y"]` merges to the one cell `"12 3%Yo Y"` |
| Tables.ShortCellsMerge | parse_factsheet.py:229 | two short cells merge |
| Tables.PercentCellsMerge | parse_factsheet.py:231 | a cell ending in `%Yo` merges with a following `Y` |
| Tables.TrimEmptyTail | parse_factsheet.py:246-247 | the trimmed row is a prefix, empty or ending in a non-empty cell, and only empty cells were dropped |
| Tables.TrimTrailingEmpty | parse_factsheet.py:246-247 | the `pop` loop computes the trimmed row |
| Tables.TrimEmptyTailKeepsWords | parse_factsheet.py:246-247 | trimming keeps the words of the row |
| Tables.RowKeepsWords | parse_factsheet.py:244-247 | a data row keeps the words of its cleaned cells, in order |
| Tables.NormalizeTable | parse_factsheet.py:211-250 | the method computes `normalize_table` |
| Tables.NormalizeRows | parse_factsheet.py:242-248 | the row loop yields each row cleaned, merged and trimmed |
| Tables.NormalizeRow | parse_factsheet.py:244-247 | one row cleaned, merged and trimmed |
| Tables.TrimmedRowsShape | parse_factsheet.py:242-248 | every data row after trimming is empty or ends in a non-empty cell, and is a prefix of its merged cells |
| Tables.NormalizeCleanedShape | parse_factsheet.py:240-250 | one row per data row, each empty or ending in a non-empty cell and a prefix of its merged cells; the header row keeps its words and is empty only for no header cells |
| Tables.HeadersNotTrimmed | parse_factsheet.py:240 | headers keep their trailing empty cells |
| Tables.BlankCellStrips | parse_factsheet.py:272 | a cell is blank exactly when it is missing or strips to nothing |
| Tables.RowText | parse_factsheet.py:274-275 | a missing cell becomes `""` and the others are kept |
| Tables.Candidates | parse_factsheet.py:271-276 | no more candidate tables than grids |
| Tables.KeysMember | parse_factsheet.py:277-280 | a key is in the seen set exactly when some table has it |
| Tables.KeptOfKeys | parse_factsheet.py:277-281 | no two kept tables share a key, and every key seen is that of a kept table |
| Tables.KeptOfIsFirsts | parse_factsheet.py:277-281 | the kept tables are exactly the first table of each key, in first-seen order |
| Tables.KeptOfPrefix | parse_factsheet.py:266-281 | tables kept from the `lines` strategy stay kept, ahead of those of the `text` strategy |
| Tables.KeptCandidatesSnoc | parse_factsheet.py:271-281 | one more grid: a blank one changes nothing, any other is normalised and kept if its key is new |
| Tables.ConsiderGrid | parse_factsheet.py:272-281 | one grid of the inner loop, with `seen_keys` the keys of the tables kept |
| Tables.KeepNewTables | parse_factsheet.py:271-281 | one strategy's loop, starting from the tables kept so far, skips blank grids and keeps each normalised table whose key is new, with `seen_keys` the keys kept |
| Tables.CandidatesAppend | parse_factsheet.py:266-276 | the candidates of the `lines` grids followed by the `text` grids are those of each strategy in turn |
| Tables.KeptFromCandidates | parse_factsheet.py:271-281 | going on over more grids from the tables kept so far gives the first table per key over all the candidates |
| Tables.PageTablesFirstSeen | parse_factsheet.py:260-281 | a page's tables are the first candidate of each key in first-seen order: no two share a key, every key found is kept, and the `lines` strategy's tables come first |
| Tables.ExtractPageTables | parse_factsheet.py:260-281 | a page's tables are its kept candidates, `lines` before `text` |
| Tables.TablesByPage | parse_factsheet.py:259-283 | page `i` has an entry exactly when it keeps a table, and the entry is its kept tables |
| Tables.ExtractTables | parse_factsheet.py:252-284 | the same, with `normalize_table` as the normaliser |
| Merger.TableItemFor | parse_factsheet.py:293 | a table item has no text and no bbox, and sorts with key `(2, 1e9)` |
| Merger.TableItems | parse_factsheet.py:292-293 | one table item per table, in order |
| Merger.MergedContentOrdered | parse_factsheet.py:290-303 | the merged content is sorted by key, is a permutation of the old content plus the table items, and is stable |
| Merger.MergedContentByType | parse_factsheet.py:301-303 | headings come first, then paragraphs, then tables, then charts |
| Merger.MergedTablesInOrder | parse_factsheet.py:292-303 | the tables of a page keep the order they were found in |
| Merger.AppendTables | parse_factsheet.py:291-293 | the table items are appended to the page |
| Merger.SortContent | parse_factsheet.py:303 | the page's content is replaced by its stable sort |
| Merger.MergeTablesIntoPages | parse_factsheet.py:289-303 | page `i` receives the tables stored under `i` and its content is re-sorted |
| Metadata.MonthAt | parse_factsheet.py:323 | the month found occurs at the position and no earlier alternative does; none is returned only when no alternative occurs there |
| Metadata.MonthsDistinctStarts | parse_factsheet.py:323 | the twelve month names of the pattern differ within their first three letters |
| Metadata.MonthMatchUnique | parse_factsheet.py:323 | of names that differ within their first three letters, as the month names do, at most one occurs at a position, so the order of the alternatives does not decide the match |
| Metadata.DateAtAnyMonth | parse_factsheet.py:323 | for such names, a date starts at a position exactly when some name there is followed by whitespace and four digits, whichever alternative the search tries first |
| Metadata.DateEnd | parse_factsheet.py:323 | a date ends after its start, within the text |
| Metadata.FirstDate | parse_factsheet.py:323 | the position found is a date start, or the end of the text |
| Metadata.FirstDateLeftmost | parse_factsheet.py:323 | no date starts before the position found |
| Metadata.FindDocDateLeftmost | parse_factsheet.py:323-325 | the document date is the text at the leftmost month-whitespace-four-digits match, and there is none exactly when no position matches |
| Metadata.FirstDateNone | parse_factsheet.py:323 | for such names, the search reaches the end of the text exactly when no name, at any position, is followed by whitespace and four digits |
| Metadata.FindDocDateNone | parse_factsheet.py:323-325 | there is no document date exactly when no month name, at any position, is followed by whitespace and four digits |
| Metadata.DateShape | parse_factsheet.py:323 | a date starts with a month name and ends with four digits |
| Metadata.ParseNatString | parse_factsheet.py:375 | a whole number written in digits reads back as itself |
| Metadata.ParseFraction | parse_factsheet.py:391 | digits, a dot and digits read as the whole part plus the fraction |
| Metadata.ParseRejects | parse_factsheet.py:374-377 | a capture with no digit does not read as a number, so the field stays unset |
| Metadata.ParseRejectsTwoDots | parse_factsheet.py:388-393 | a capture with two dots does not read as a number, so the field stays unset |
| Metadata.WithoutCommas | parse_factsheet.py:375 | removing commas leaves no comma and adds no character, and a text without commas is returned unchanged |
| Metadata.WithoutCommasAppend | parse_factsheet.py:375 | commas are removed piece by piece: the result for `a + b` is the result for `a` followed by that for `b` |
| Metadata.DigitsValueAppend | parse_factsheet.py:375 | digits written after digits shift the first number left by their count: the value of `a + b` is the value of `a` times 10 to the length of `b`, plus the value of `b` |
| Metadata.GroupedFigure | parse_factsheet.py:372-375 | an AUM figure with a thousands separator, digits `,` digits `.` digits, reads after comma removal as the two digit groups run together plus the fraction, worth `high` times 10 to the length of `low`, plus `low` |
| Metadata.UpperStr | parse_factsheet.py:341 | each character upper-cased |
| Metadata.DropParenthesized | parse_factsheet.py:408 | removing parenthesised text never lengthens the name |
| Metadata.CloseIndex | parse_factsheet.py:408 | the first `)` |
| Metadata.SingleSpacedNormalized | parse_factsheet.py:343 | `" ".join(s.split())` is normalised text |
| Metadata.JoinedNormalized | parse_factsheet.py:409 | words without whitespace joined by single spaces are normalised |
| Metadata.TitleDroppedNormalized | parse_factsheet.py:410 | dropping a title keeps a normalised name normalised |
| Metadata.SpacedTitleDroppedNormalized | parse_factsheet.py:409-410 | single-spacing then dropping a title gives normalised text |
| Metadata.ManagerNameNormalized | parse_factsheet.py:407-410 | a cleaned manager name is single-spaced with no space at either end |
| Metadata.AddManagersRoster | parse_factsheet.py:406-413 | adding names keeps the list free of duplicates with `seen_managers` holding exactly its names, and only appends |
| Metadata.AddManagersLoop | parse_factsheet.py:406-413 | the `for mname in matches` loop computes the added names |
| Metadata.ItemStepKeeps | parse_factsheet.py:331-428 | every item keeps the roster consistent, leaves the buffer empty, only appends managers and keeps the document date |
| Metadata.TextStepKeeps | parse_factsheet.py:340-428 | the same for a cleaned text that is not noise |
| Metadata.ManagerStepKeeps | parse_factsheet.py:403-428 | the same for the manager branches |
| Metadata.ContinuationNeverFires | parse_factsheet.py:414-417 | between items the buffer is empty, so the `Mr.` branch cannot fire |
| Metadata.TruthyFieldsKept | parse_factsheet.py:340-401 | a scalar field that is already truthy is never overwritten by an item |
| Metadata.LabelledValuesKeep | parse_factsheet.py:354-401 | the labelled values only fill falsy fields and leave name, category and date alone |
| Metadata.ManagerStepOnlyManagers | parse_factsheet.py:403-428 | the manager branches change no field except `managers` |
| Metadata.NameItemConsumed | parse_factsheet.py:340-344 | the item that names the fund sets the name and nothing else |
| Metadata.ZeroStaysOpen | parse_factsheet.py:371-377 | a number field holding `0.0` is still falsy and is set by a later match |
| Metadata.FoldItemsKeeps | parse_factsheet.py:331-428 | the item loop keeps the roster and buffer invariant, only appends managers and keeps the date |
| Metadata.FoldPagesKeeps | parse_factsheet.py:330-428 | the page loop keeps the invariant and the date |
| Metadata.ExtractedMetadataShape | parse_factsheet.py:308-430 | the result's managers have no duplicates, the buffer is empty after the last item, and the date is the one found on the cover |
| Metadata.Contents | parse_factsheet.py:330-331 | the pages' contents, in page order |
| Metadata.MetadataExtractor.constructor | parse_factsheet.py:309-328 | every field unset, no managers, empty buffer, and the cover date searched |
| Metadata.MetadataExtractor.ProcessItem | parse_factsheet.py:331-428 | the new state is one step of the item loop |
| Metadata.MetadataExtractor.ProcessCleaned | parse_factsheet.py:334-428 | the new state is the step for a cleaned text |
| Metadata.MetadataExtractor.ProcessManagers | parse_factsheet.py:403-428 | the new state is the manager branches' step |
| Metadata.ExtractFundMetadata | parse_factsheet.py:308-430 | the method computes the specified fold over every item of every page |
| Content.Page.constructor | parse_factsheet.py:33-36 | the page holds its number and content |

## Left out

- The PDF and table libraries are not modelled: `need`, `open_doc`, `extract_blocks` and page access. Blocks, image counts and each strategy's grids are inputs. A strategy that raises is given as no grids, and a failing image listing as zero images.
- `parse`, `main`, argument parsing, JSON output and file-name handling are I/O and are not modelled.
- Character classes are ASCII: `\w`, `\d`, `[A-Za-z]`, `isupper`, `upper()`, `lower()` and `re.IGNORECASE` cover ASCII letters and digits only. Whitespace is Python's exact `str.isspace` set.
- Floating point is not modelled. Font sizes are exact reals and bbox coordinates are integers. The 1e9 sentinel is the integer 1 000 000 000. `float(...)` is exact decimal reading.
- A span with an explicit `None` size raises in Python; the model treats it as a missing size, 10.0.
- A missing span text is the empty string. `str(c)` of non-string cells is not modelled: cells are strings or missing.
- The labelled-value regular expressions are given as uninterpreted functions (fields of `Metadata.Matchers`): allotment date, benchmarks, net and monthly AUM, expense ratios, and the two manager `findall` patterns. Everything around them is modelled as written.
- Metadata.ParseDecimal: it reads only digits with at most one dot, which is all the number patterns can capture.
- Type order 4 of `sort_key` can never occur, because every item type is one of the four named ones.
- Page objects must be distinct in `Merger.MergeTablesIntoPages`. The source's `enumerate` does not rule out aliasing, but `group_page_content` always builds new pages.
- Text.JoinHyphenated: its contract states only that the text does not grow. Its effect is stated through `Text.CleanTextNormalized` and the `Text.CleanTextNotIdempotent` example.
- Text.SplitGlued: its contract states the shape it keeps (end characters and spacing), not which pairs it separates.
- Headings.LabelOne: its own contract states only the count. What the labels are is stated by `Headings.LabelSpansFilterMap`, `Headings.LabelSpansCorrect` and `Headings.LabelSpansAppend`.
- Assembler.SplitFrom: its own contract states only that there is a piece. Where the pieces are cut is stated by `Assembler.SplitCuts`, and what they are for normalised text by `Assembler.SplitFromNormalized`.
- Assembler.KeepParts: its own contract states only the count. What the parts are is stated by `Assembler.KeepPartsTrimmed` and `Assembler.KeepPartsOfTrimmed`.
- Tables.Candidates: its own contract states only the count. What the kept tables are is stated by `Tables.PageTablesFirstSeen` and `Tables.KeptCandidatesSnoc`.
- Metadata.DropParenthesized: its contract states only that the name does not grow. Its effect on spacing is stated by `Metadata.ManagerNameNormalized`.
- Concurrency and exceptions other than those above are not modelled.
