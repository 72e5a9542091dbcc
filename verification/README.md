# Markdown heading segmenter

This project models the core of a small converter that turns Markdown
documentation into prompt/completion records for fine-tuning. The converter
has two scripts with the same `parse_markdown_headings`:

- `text2qa.py` handles a single document.
- `folder2qa.py` handles every `.md` file under a folder. It puts the file
  name in front of every prompt, and `process_md_file` adds a record for the
  whole document before the heading records.

Both scripts filter out records with an empty completion in
`save_qa_pairs` before writing them.

`parse_markdown_headings` works in three steps, and the model follows it
loop by loop:

1. **Extraction** (module `Headings`). The text is split on `'\n'`
   (`PyText.Split`). Every line is matched against `^(#{1,6})\s*(.*)`,
   which `MatchHeading` writes out character by character. Each match
   records a heading `(level, title, lineNumber)`. After the last line, a
   level-0 sentinel `END_OF_DOCUMENT` is appended at `len(lines)`.
   - `ExtractHeadings` is the `for idx, line` loop.
   - `HeadingList` is the list it builds.
2. **Segmentation** (module `Sections`). For every real heading:
   - `FindEndLine` (the inner loop with its `break`) finds the first later
     heading whose level is the same or higher.
   - The completion is the stripped `'\n'`-join of the lines in between.
   - The prompt is the `" - "`-join of the titles of every heading so far,
     whatever their levels.
   - A record is kept only when its completion is non-empty.

   `Segment` is the outer loop. It takes the text put in front of each
   prompt as a parameter: `""` in `text2qa.py` and `file_name + " - "` in
   `folder2qa.py`.

   A heading's completion keeps the raw lines of the deeper headings nested
   under it (`Sections.NestedHeadingsInSection`). For the lines `# A`, `x`,
   `## B`, `y`, `# C`, `z`, the completion of A is `x\n## B\ny`, and the
   prompt of C is `A - B - C`.
3. **Records** (modules `QaRecords`, `Text2QA`, `Folder2QA`).
   - `ProcessMdFile` puts the whole-document record first.
   - `SaveQaPairs` keeps the records with a non-empty completion, in
     order.

Python's `str.split`, `str.join` and `str.strip` are modelled in module
`PyText` on strings as sequences of characters. Whitespace is the set of
characters for which `str.isspace()` holds; a `\s` in a `str` pattern
matches the same set.

Every loop is a method proved against a function that specifies it. The
properties of the scripts are lemmas about those functions.

## Model

| member | source | states |
|---|---|---|
| PyText.Split | folder2qa.py:27 | `text.split('\n')` yields at least one piece, and no piece contains a newline |
| PyText.Join | folder2qa.py:62-66 | defines `sep.join(parts)`: the parts in order with `sep` between neighbours, `""` for no parts |
| PyText.JoinSplit | text2qa.py:16 | joining the pieces of a split with `'\n'` gives back the text, so no character is lost |
| PyText.SplitJoin | folder2qa.py:27 | splitting the `'\n'`-join of newline-free pieces gives back exactly those pieces |
| PyText.LeadingSpaces | folder2qa.py:34 | counts the characters that `\s*` consumes: all whitespace, and followed by a non-whitespace character or the end |
| PyText.TrailingSpaces | folder2qa.py:41 | counts the whitespace `strip` removes at the end: all whitespace, and preceded by a non-whitespace character or the start |
| PyText.Strip | folder2qa.py:41 | `s.strip()` is empty exactly when `s` is all whitespace, and never starts or ends with whitespace |
| PyText.TrimBoth | folder2qa.py:66 | removing leading then trailing whitespace gives nothing exactly when the text is all whitespace; otherwise neither end is whitespace |
| PyText.StripIsSlice | folder2qa.py:66 | the stripped text is a contiguous piece of the original, and only whitespace is cut off on either side |
| PyText.StrippedUnchanged | text2qa.py:55 | strip leaves a string without whitespace at either end unchanged |
| PyText.StripIdempotent | text2qa.py:55 | for every string, stripping twice is stripping once |
| PyText.StripKeepsFirst | folder2qa.py:41 | a string that starts with a non-whitespace character keeps it as its first character when stripped |
| PyText.StripAfterTrimStart | folder2qa.py:41 | stripping after `\s*` has consumed the leading whitespace gives the same title as stripping the whole rest |
| PyText.AllSpaceJoin | folder2qa.py:66 | a `'\n'`-join is all whitespace exactly when every joined line is |
| PyText.JoinAppend | folder2qa.py:62 | joining one more title appends the separator and that title |
| Headings.HashRun | folder2qa.py:34 | the length of the run of `#` a line starts with: every counted character is `#`, and the next one is not |
| Headings.UpToNewlineWhole | folder2qa.py:34 | on a line without a newline, `(.*)` captures everything that remains |
| Headings.MatchHeading | folder2qa.py:34-37 | the anchored pattern matches exactly the lines whose first character is `#`, with one to six `#` in the first group |
| Headings.MatchHeadingGroups | folder2qa.py:34-39 | the first group is the greedy run of one to six `#` at the start; on a newline-free line, the second group is the rest after that run, with the leading whitespace skipped |
| Headings.ParseLine | folder2qa.py:36-43 | a line yields a heading exactly when it starts with `#`; the heading is on that line, at a level from 1 to 6 |
| Headings.Sentinel | folder2qa.py:45-46 | defines the artificial end heading: level 0, title `END_OF_DOCUMENT`, on line `len(lines)` |
| Headings.ParseAll | folder2qa.py:36-37 | defines the result of the pattern on each line, indexed by line number |
| Headings.Collect | folder2qa.py:38-43 | defines the headings appended after a run of the loop: one per matching line, in line order |
| Headings.HeadingList | folder2qa.py:36-46 | defines the finished `headings` list: every heading line in order, then the sentinel |
| Headings.ParseLineClassifies | text2qa.py:23-32 | a line is a heading iff it starts with `#`; its level is min(run of `#`, 6) and its title is the stripped rest after those `#` |
| Headings.LongRunIsLevelSix | folder2qa.py:34-43 | a run of seven or more `#` is still a level-6 heading, and the surplus `#` opens its title |
| Headings.LoneHashHasEmptyTitle | folder2qa.py:34-43 | a line that is only `#` is a level-1 heading with an empty title, and it is kept |
| Headings.NoSpaceNeeded | text2qa.py:23-32 | no space is needed after the `#`s: when they are followed by a non-whitespace character, the title starts with it |
| Headings.IndentedIsNotHeading | folder2qa.py:34-37 | a line whose first character is whitespace is never a heading: the pattern is anchored and the line is not trimmed |
| Headings.ExtractHeadings | folder2qa.py:36-46 | the extraction loop followed by the sentinel append returns `HeadingList(lines)` |
| Headings.CollectOrdered | folder2qa.py:36-43 | the collected headings are at levels 1..6, on lines already seen, in strictly increasing line order |
| Headings.CollectSound | text2qa.py:25-32 | every collected heading is exactly what its own line yielded |
| Headings.CollectComplete | folder2qa.py:36-43 | every line that yielded a heading has that heading collected |
| Headings.ParseAllNumbered | text2qa.py:25-32 | every per-line result sits on its own line number, at a level from 1 to 6 |
| Headings.HeadingListIsWellFormed | text2qa.py:25-35 | the heading list has strictly increasing line numbers, all below `len(lines)`, and real levels 1..6; the level-0 sentinel at `len(lines)` is last |
| Headings.CollectWithSentinel | folder2qa.py:36-46 | the sentinel does not hide or add a heading: a line is recorded before it exactly when its result is a heading |
| Headings.HeadingListRecordsHeadingLines | folder2qa.py:36-46 | the heading list records exactly the lines that start with `#`, each as the pattern reads it |
| Sections.ClosingFrom | folder2qa.py:55-58 | the search from `j` on returns the first heading at the current level or higher |
| Sections.ClosingIndex | folder2qa.py:54-58 | the closing heading exists after `i`, is at the same or a higher level, and every heading between them is deeper |
| Sections.EndLine | folder2qa.py:54-58 | defines `end_line`: the line number of the closing heading |
| Sections.FindEndLine | text2qa.py:43-47 | the inner loop with its `break` always stops, and sets `end_line` to the line of the first later heading at the same or a higher level |
| Sections.SectionBounds | folder2qa.py:49-58 | `start_line <= end_line <= len(lines)` for every real heading |
| Sections.Titles | folder2qa.py:61 | the titles of the headings, in order, one per heading |
| Sections.Prompt | folder2qa.py:61-62 | defines heading `i`'s prompt: the prefix, then the `" - "`-join of the titles of headings `0..i` (`text2qa.py:50-51` with an empty prefix) |
| Sections.PromptExtends | text2qa.py:50-51 | the next heading's prompt is this prompt, then `" - "`, then the next title |
| Sections.TitlesGrow | text2qa.py:50 | the titles behind heading `i`'s prompt are the first `i + 1` of those behind any later prompt |
| Sections.PromptsGrow | folder2qa.py:61-62 | every prompt starts with every earlier one: earlier headings stay in the label whatever their levels |
| Sections.SectionLines | folder2qa.py:52-65 | defines `completion_lines`: `lines[start_line:end_line]` |
| Sections.Completion | folder2qa.py:66 | defines `completion`: the stripped `'\n'`-join of the section's lines |
| Sections.Section | folder2qa.py:60-73 | defines the record heading `i` would append: its prompt and its completion |
| Sections.Candidates | folder2qa.py:49-66 | defines the record of every real heading, in heading order, before the emptiness test |
| Sections.Segmented | folder2qa.py:68-75 | defines `qa_pairs`: the candidate records with a non-empty completion, in heading order |
| Sections.CompletionEmptyIff | folder2qa.py:65-69 | a section's completion is empty exactly when every line between the heading and `end_line` is whitespace |
| Sections.NestedHeadingsInSection | text2qa.py:44-54 | every heading between a heading and the one that closes it is deeper, and its raw line is part of the completion lines |
| Sections.Segment | folder2qa.py:49-75 | the segmentation loop returns `Segmented`: the candidates with a non-empty completion, in heading order |
| Sections.SegmentedCompletions | text2qa.py:54-62 | every returned record is some heading's record, with a non-empty completion that has no whitespace at either end; every heading with a non-empty completion has its record returned |
| Sections.SegmentedWithPrefix | folder2qa.py:62 | segmenting with a prompt prefix gives the unprefixed records, with each prompt prefixed |
| QaRecords.KeepNonEmpty | folder2qa.py:69-73 | the records whose completion is non-empty, in order; never more than the input |
| QaRecords.KeepNonEmptyMembers | text2qa.py:70 | a record is kept exactly when it is an input record with a non-empty completion |
| QaRecords.SaveQaPairs | folder2qa.py:95-107 | writes exactly the records with a non-empty completion, in input order, one each (`text2qa.py:66-78` is the same loop) |
| QaRecords.KeepNonEmptyAppend | folder2qa.py:98-99 | filtering a concatenation filters each part, so documents can be filtered one at a time |
| QaRecords.AddPrefix | folder2qa.py:62 | defines putting a prefix before the prompt of every record, leaving the completions alone |
| QaRecords.KeepNonEmptyPrefixed | folder2qa.py:62-69 | prefixing prompts and dropping empty completions commute |
| QaRecords.KeepNonEmptyKeepsAll | text2qa.py:70 | a sequence whose completions are all non-empty passes the filter unchanged |
| QaRecords.KeepNonEmptyIdempotent | folder2qa.py:99 | filtering twice is filtering once |
| Text2QA.Parse | text2qa.py:9-64 | defines the records `parse_markdown_headings(text)` returns: the segmented records of the split text, with no prompt prefix |
| Text2QA.ParseMarkdownHeadings | text2qa.py:9-64 | `parse_markdown_headings(text)` splits, extracts the headings, then segments with an empty prefix |
| Text2QA.ParseRecords | text2qa.py:38-62 | at most one record per real heading; every record's completion is non-empty with no whitespace at either end |
| Text2QA.NoHeadingNoRecords | text2qa.py:25-38 | a text with no line starting with `#` yields no records |
| Text2QA.BlankTextNoRecords | text2qa.py:16-38 | a text made only of whitespace yields no records |
| Folder2QA.FilePrefix | folder2qa.py:62 | defines the text put before every prompt: `file_name + " - "` |
| Folder2QA.Parse | folder2qa.py:19-75 | defines the records `parse_markdown_headings(text, file_name)` returns: the segmented records of the split text, prefixed by `FilePrefix` |
| Folder2QA.ParseMarkdownHeadings | folder2qa.py:19-75 | `parse_markdown_headings(text, file_name)` splits, extracts the headings, then segments with the prefix `file_name + " - "` |
| Folder2QA.SameAsSingleDocument | folder2qa.py:62 | the folder variant returns the single-document records, with the same count, order and completions, and each prompt prefixed by `file_name + " - "` |
| Folder2QA.ParseRecords | folder2qa.py:49-75 | at most one record per real heading, each with a non-empty completion that has no whitespace at either end |
| Folder2QA.Records | folder2qa.py:82-93 | defines the list `process_md_file` returns: the whole-document record, then the heading records |
| Folder2QA.ProcessMdFile | folder2qa.py:77-93 | the whole-document record `(file_name, text.strip())` comes first, even with an empty completion, then the heading records of `parse_markdown_headings`: length 1 + their number |
| Folder2QA.SavedRecords | folder2qa.py:85-107 | saving one document's records writes none of them when the document is blank, and all of them otherwise |

## Left out

- `find_md_files` and `read_markdown` are not modelled: they walk the
  filesystem and read files. A document is given to the model as its text.
- `os.path.basename` and `os.path.splitext` in `process_md_file` are not
  modelled: the file name is an input string.
- The JSON encoding and the file writes of `save_qa_pairs` are not modelled.
  `SaveQaPairs` returns the sequence of records it would write, one per
  line.
- `main` in `folder2qa.py` and the script at the end of `text2qa.py` are not
  modelled. They only hold hard-coded paths, the loop over the files found,
  and console output. `KeepNonEmptyAppend` states what filtering the
  concatenated records of several documents amounts to.
- Whitespace is a fixed set, the characters for which Python's
  `str.isspace()` holds. Strings are sequences of Unicode scalar values, so
  lone surrogates that a Python `str` can hold are not modelled.
- Python's slices clamp out-of-range bounds. The model uses exact slices:
  `SectionBounds` proves that the bounds the code computes are always in
  range.
- If the inner search never reached its `break`, `end_line` in Python would
  be unbound or stale. The sentinel rules this out, so `FindEndLine`
  requires the level-0 heading to be last, which `HeadingListIsWellFormed`
  proves for every extracted list.
