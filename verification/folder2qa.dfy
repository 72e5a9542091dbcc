/** The folder converter's per-document logic: `parse_markdown_headings(text,
    file_name)`, which prefixes every prompt with the file name, and
    `process_md_file`, which puts a whole-document record before the
    heading records. The file name is an input: deriving it from a path is
    not modelled. */
module Folder2QA {
  import opened PyText
  import opened Headings
  import opened QaRecords
  import opened Sections
  import Text2QA

  /** What `f"{file_name} - "` puts in front of every heading prompt. */
  function FilePrefix(fileName: string): string {
    fileName + PromptSeparator
  }

  /** The records `parse_markdown_headings(text, file_name)` returns. */
  function Parse(text: string, fileName: string): seq<QaPair>
  {
    var lines := Split(text);
    HeadingListIsWellFormed(lines);
    Segmented(lines, HeadingList(lines), FilePrefix(fileName))
  }

  /** `parse_markdown_headings(text, file_name)`: the records of `Parse`. */
  method ParseMarkdownHeadings(text: string, fileName: string) returns (qaPairs: seq<QaPair>)
    ensures qaPairs == Parse(text, fileName)
  {
    var lines := Split(text);
    var headings := ExtractHeadings(lines);
    HeadingListIsWellFormed(lines);
    qaPairs := Segment(lines, headings, FilePrefix(fileName));
  }

  /** The folder variant's records are the single-document ones, in the same
      order and with the same completions, each prompt prefixed with the file
      name and " - ". */
  lemma SameAsSingleDocument(text: string, fileName: string)
    ensures |Parse(text, fileName)| == |Text2QA.Parse(text)|
    ensures forall k :: 0 <= k < |Parse(text, fileName)| ==>
      Parse(text, fileName)[k] == QaPair(FilePrefix(fileName) + Text2QA.Parse(text)[k].prompt,
                                         Text2QA.Parse(text)[k].completion)
    ensures forall p :: p in Parse(text, fileName) ==>
      |FilePrefix(fileName)| <= |p.prompt| && p.prompt[..|FilePrefix(fileName)|] == FilePrefix(fileName)
  {
    var lines := Split(text);
    HeadingListIsWellFormed(lines);
    SegmentedWithPrefix(lines, HeadingList(lines), FilePrefix(fileName));
  }

  /** The records `process_md_file` returns for a document named `fileName`
      with content `text`. */
  function Records(text: string, fileName: string): seq<QaPair>
  {
    [QaPair(fileName, Strip(text))] + Parse(text, fileName)
  }

  /** `process_md_file` without the file read: the whole-document record
      `(file_name, text.strip())` comes first, even when its completion is
      empty, followed by the heading records. */
  method ProcessMdFile(text: string, fileName: string) returns (qaPairs: seq<QaPair>)
    ensures qaPairs == Records(text, fileName)
    ensures |qaPairs| == 1 + |Parse(text, fileName)|
    ensures qaPairs[0] == QaPair(fileName, Strip(text))
    ensures qaPairs[1..] == Parse(text, fileName)
  {
    qaPairs := [];
    qaPairs := qaPairs + [QaPair(fileName, Strip(text))];
    var parsed := ParseMarkdownHeadings(text, fileName);
    qaPairs := qaPairs + parsed;
    assert qaPairs[1..] == parsed;
  }

  /** What `save_qa_pairs` keeps of one document's records: all of them when
      the document has a non-whitespace character, none when it is blank. */
  lemma SavedRecords(text: string, fileName: string)
    ensures KeepNonEmpty(Records(text, fileName)) == if AllSpace(text) then [] else Records(text, fileName)
  {
    var whole := QaPair(fileName, Strip(text));
    var parsed := Parse(text, fileName);
    KeepNonEmptyAppend([whole], parsed);
    assert KeepNonEmpty([whole]) == if whole.completion != [] then [whole] else [] by {
      assert [whole][..0] == [];
    }
    ParseRecords(text, fileName);
    KeepNonEmptyKeepsAll(parsed);
    if AllSpace(text) {
      Text2QA.BlankTextNoRecords(text);
      SameAsSingleDocument(text, fileName);
    }
  }

  /** Every heading record has a non-empty completion that neither starts
      nor ends with whitespace, and there is at most one per heading. */
  lemma ParseRecords(text: string, fileName: string)
    ensures |Parse(text, fileName)| <= |HeadingList(Split(text))| - 1
    ensures forall k :: 0 <= k < |Parse(text, fileName)| ==>
      Parse(text, fileName)[k].completion != [] && Stripped(Parse(text, fileName)[k].completion)
  {
    SameAsSingleDocument(text, fileName);
    Text2QA.ParseRecords(text);
    var bare := Text2QA.Parse(text);
    assert forall k :: 0 <= k < |bare| ==> bare[k] in bare;
  }
}
