/** `parse_markdown_headings(text)` of the single-document converter: split
    the text into lines, record its headings, then segment it with prompts
    made of the heading titles alone. */
module Text2QA {
  import opened PyText
  import opened Headings
  import opened QaRecords
  import opened Sections

  /** The records `parse_markdown_headings(text)` returns. */
  function Parse(text: string): seq<QaPair>
  {
    var lines := Split(text);
    HeadingListIsWellFormed(lines);
    Segmented(lines, HeadingList(lines), "")
  }

  /** `parse_markdown_headings(text)`: the records of `Parse`. */
  method ParseMarkdownHeadings(text: string) returns (qaPairs: seq<QaPair>)
    ensures qaPairs == Parse(text)
  {
    var lines := Split(text);
    var headings := ExtractHeadings(lines);
    HeadingListIsWellFormed(lines);
    qaPairs := Segment(lines, headings, "");
  }

  /** At most one record per heading, each with a non-empty completion
      that neither starts nor ends with whitespace. */
  lemma ParseRecords(text: string)
    ensures |Parse(text)| <= |HeadingList(Split(text))| - 1
    ensures forall k :: 0 <= k < |Parse(text)| ==>
      Parse(text)[k].completion != [] && Stripped(Parse(text)[k].completion)
  {
    var lines := Split(text);
    var hs := HeadingList(lines);
    HeadingListIsWellFormed(lines);
    var records := Segmented(lines, hs, "");
    assert records == Parse(text);
    assert |Candidates(lines, hs, "")| == |hs| - 1;
    SegmentedCompletions(lines, hs, "");
    forall k | 0 <= k < |records|
      ensures records[k].completion != [] && Stripped(records[k].completion)
    {
      assert records[k] in records;
    }
  }

  /** A text none of whose lines starts with '#' has no headings, hence no
      records. */
  lemma NoHeadingNoRecords(text: string)
    requires forall k :: 0 <= k < |Split(text)| ==> Split(text)[k] == [] || Split(text)[k][0] != '#'
    ensures Parse(text) == []
  {
    var lines := Split(text);
    var hs := HeadingList(lines);
    HeadingListIsWellFormed(lines);
    if |hs| > 1 {
      var first := hs[0];
      assert hs[..|hs| - 1][0] == first;
      HeadingListRecordsHeadingLines(lines, first.lineNumber);
      assert false;
    }
    assert Candidates(lines, hs, "") == [];
    assert Parse(text) == KeepNonEmpty([]);
  }

  /** A text made only of whitespace yields no records. */
  lemma BlankTextNoRecords(text: string)
    requires AllSpace(text)
    ensures Parse(text) == []
  {
    var lines := Split(text);
    JoinSplit(text);
    AllSpaceJoin(lines);
    forall k | 0 <= k < |lines|
      ensures lines[k] == [] || lines[k][0] != '#'
    {
      assert AllSpace(lines[k]);
    }
    NoHeadingNoRecords(text);
  }
}
