/** Section segmentation: the second loop of `parse_markdown_headings`. For
    every real heading it finds the first later heading of the same or a
    higher level (the sentinel at the latest), takes the lines strictly in
    between as the completion, and labels it with the titles of every
    heading seen so far. Both entry points run this loop; they differ only
    in the text put in front of the prompt. */
module Sections {
  import opened PyText
  import opened Headings
  import opened QaRecords

  /** What `' - '.join(...)` puts between titles. */
  const PromptSeparator: string := " - "

  // ---------------------------------------------------------------------------
  // Where a section ends.

  /** The first index from `j` on whose heading is at the level of heading
      `i` or higher, given that none between `i` and `j` is. */
  function ClosingFrom(hs: seq<Heading>, i: nat, j: nat): (c: nat)
    requires i < j < |hs| && hs[|hs| - 1].level == 0
    requires forall k :: i < k < j ==> hs[k].level > hs[i].level
    ensures j <= c < |hs| && hs[c].level <= hs[i].level
    ensures forall k :: i < k < c ==> hs[k].level > hs[i].level
    decreases |hs| - j
  {
    if hs[j].level <= hs[i].level then j else ClosingFrom(hs, i, j + 1)
  }

  /** The heading that closes heading `i`: the first later one whose level
      is at most its own. The sentinel (level 0) guarantees there is one. */
  function ClosingIndex(hs: seq<Heading>, i: nat): (c: nat)
    requires i + 1 < |hs| && hs[|hs| - 1].level == 0
    ensures i < c < |hs| && hs[c].level <= hs[i].level
    ensures forall k :: i < k < c ==> hs[k].level > hs[i].level
  {
    ClosingFrom(hs, i, i + 1)
  }

  /** `end_line` for heading `i`: the line of the heading that closes it. */
  function EndLine(hs: seq<Heading>, i: nat): nat
    requires i + 1 < |hs| && hs[|hs| - 1].level == 0
  {
    hs[ClosingIndex(hs, i)].lineNumber
  }

  /** The inner `for j in range(i + 1, len(headings))` loop with its `break`:
      the search stops at the first heading whose level is at most the
      current one, which the level-0 sentinel always is. */
  method FindEndLine(headings: seq<Heading>, i: nat) returns (endLine: nat)
    requires i + 1 < |headings| && headings[|headings| - 1].level == 0
    ensures endLine == EndLine(headings, i)
  {
    var currentLevel := headings[i].level;
    var j := i + 1;
    while headings[j].level > currentLevel
      invariant i < j < |headings|
      invariant forall k :: i < k < j ==> headings[k].level > currentLevel
      decreases |headings| - j
    {
      j := j + 1;
    }
    endLine := headings[j].lineNumber;
  }

  /** The section of heading `i` starts on the line after it and ends no
      later than the end of the document: `start_line <= end_line <= len(lines)`. */
  lemma SectionBounds(hs: seq<Heading>, lineCount: nat, i: nat)
    requires IsHeadingList(hs, lineCount) && i < |hs| - 1
    ensures hs[i].lineNumber + 1 <= EndLine(hs, i) <= lineCount
  {
    var c := ClosingIndex(hs, i);
    assert hs[i].lineNumber < hs[c].lineNumber;
  }

  // ---------------------------------------------------------------------------
  // Prompts.

  /** `[h['title'] for h in hs]`. */
  function Titles(hs: seq<Heading>): (ts: seq<string>)
    ensures |ts| == |hs|
    ensures forall k :: 0 <= k < |hs| ==> ts[k] == hs[k].title
  {
    if hs == [] then [] else Titles(hs[..|hs| - 1]) + [hs[|hs| - 1].title]
  }

  /** The prompt of heading `i`: the prefix, then the titles of headings
      `0..i` in scan order, whatever their levels, joined by " - ". */
  function Prompt(promptPrefix: string, hs: seq<Heading>, i: nat): string
    requires i < |hs|
  {
    promptPrefix + Join(PromptSeparator, Titles(hs[..i + 1]))
  }

  /** The titles behind one prompt are a prefix of those behind the next,
      and the next prompt is this one followed by " - " and the next title. */
  lemma PromptExtends(promptPrefix: string, hs: seq<Heading>, i: nat)
    requires i + 1 < |hs|
    ensures Titles(hs[..i + 2]) == Titles(hs[..i + 1]) + [hs[i + 1].title]
    ensures Prompt(promptPrefix, hs, i + 1) == Prompt(promptPrefix, hs, i) + PromptSeparator + hs[i + 1].title
  {
    var t := Titles(hs[..i + 1]);
    assert hs[..i + 2][..i + 1] == hs[..i + 1];
    JoinAppend(PromptSeparator, t, hs[i + 1].title);
  }

  /** The titles behind the prompt of heading `i` are the first `i + 1` of
      those behind the prompt of any later heading `j`. */
  lemma TitlesGrow(hs: seq<Heading>, i: nat, j: nat)
    requires i <= j < |hs|
    ensures Titles(hs[..j + 1])[..i + 1] == Titles(hs[..i + 1])
  {
    var tj, ti := Titles(hs[..j + 1]), Titles(hs[..i + 1]);
    assert forall k :: 0 <= k <= i ==> tj[k] == hs[k].title == ti[k];
  }

  /** Every prompt starts with the previous one: the label only ever grows,
      whatever the levels of the headings. */
  lemma {:induction false} PromptsGrow(promptPrefix: string, hs: seq<Heading>, i: nat, j: nat)
    requires i <= j < |hs|
    ensures |Prompt(promptPrefix, hs, i)| <= |Prompt(promptPrefix, hs, j)|
    ensures Prompt(promptPrefix, hs, j)[..|Prompt(promptPrefix, hs, i)|] == Prompt(promptPrefix, hs, i)
    decreases j - i
  {
    if i < j {
      var pi := Prompt(promptPrefix, hs, i);
      var pj := Prompt(promptPrefix, hs, j - 1);
      PromptsGrow(promptPrefix, hs, i, j - 1);
      PromptExtends(promptPrefix, hs, j - 1);
      var next := pj + PromptSeparator + hs[j].title;
      assert Prompt(promptPrefix, hs, j) == next;
      assert next[..|pi|] == pj[..|pi|];
    }
  }

  // ---------------------------------------------------------------------------
  // Completions.

  /** `lines[start_line:end_line]` for heading `i`. */
  function SectionLines(lines: seq<string>, hs: seq<Heading>, i: nat): seq<string>
    requires IsHeadingList(hs, |lines|) && i < |hs| - 1
  {
    SectionBounds(hs, |lines|, i);
    lines[hs[i].lineNumber + 1..EndLine(hs, i)]
  }

  /** `'\n'.join(completion_lines).strip()` for heading `i`. */
  function Completion(lines: seq<string>, hs: seq<Heading>, i: nat): string
    requires IsHeadingList(hs, |lines|) && i < |hs| - 1
  {
    Strip(Join("\n", SectionLines(lines, hs, i)))
  }

  /** A section's completion is empty exactly when every line of it is blank. */
  lemma CompletionEmptyIff(lines: seq<string>, hs: seq<Heading>, i: nat)
    requires IsHeadingList(hs, |lines|) && i < |hs| - 1
    ensures Completion(lines, hs, i) == [] <==>
      forall k :: hs[i].lineNumber < k < EndLine(hs, i) ==> AllSpace(lines[k])
  {
    var start := hs[i].lineNumber + 1;
    var body := SectionLines(lines, hs, i);
    AllSpaceJoin(body);
    assert forall k :: 0 <= k < |body| ==> body[k] == lines[start + k];
    if forall k :: 0 <= k < |body| ==> AllSpace(body[k]) {
      forall k | hs[i].lineNumber < k < EndLine(hs, i)
        ensures AllSpace(lines[k])
      {
        assert lines[k] == body[k - start];
      }
    }
  }

  /** A section absorbs its subsections: every heading between heading `i`
      and the one that closes it is deeper, and its raw line is part of the
      section's lines. */
  lemma NestedHeadingsInSection(lines: seq<string>, hs: seq<Heading>, i: nat, k: nat)
    requires IsHeadingList(hs, |lines|) && i < |hs| - 1
    requires i < k < ClosingIndex(hs, i)
    ensures hs[k].level > hs[i].level
    ensures hs[i].lineNumber + 1 <= hs[k].lineNumber < EndLine(hs, i)
    ensures SectionLines(lines, hs, i)[hs[k].lineNumber - hs[i].lineNumber - 1] == lines[hs[k].lineNumber]
  {
    var c := ClosingIndex(hs, i);
    assert hs[i].lineNumber < hs[k].lineNumber < hs[c].lineNumber;
    SectionBounds(hs, |lines|, i);
  }

  // ---------------------------------------------------------------------------
  // The records of one document.

  /** The record heading `i` would produce, before the emptiness test. */
  function Section(lines: seq<string>, hs: seq<Heading>, promptPrefix: string, i: nat): QaPair
    requires IsHeadingList(hs, |lines|) && i < |hs| - 1
  {
    QaPair(Prompt(promptPrefix, hs, i), Completion(lines, hs, i))
  }

  /** The candidate records of every real heading, in heading order. */
  function Candidates(lines: seq<string>, hs: seq<Heading>, promptPrefix: string): seq<QaPair>
    requires IsHeadingList(hs, |lines|)
  {
    seq(|hs| - 1, i requires 0 <= i < |hs| - 1 => Section(lines, hs, promptPrefix, i))
  }

  /** The records the loop returns: one per real heading whose completion
      is non-empty, in heading order. */
  function Segmented(lines: seq<string>, hs: seq<Heading>, promptPrefix: string): seq<QaPair>
    requires IsHeadingList(hs, |lines|)
  {
    KeepNonEmpty(Candidates(lines, hs, promptPrefix))
  }

  /** The outer `for i in range(len(headings) - 1)` loop. */
  method Segment(lines: seq<string>, headings: seq<Heading>, promptPrefix: string)
    returns (qaPairs: seq<QaPair>)
    requires IsHeadingList(headings, |lines|)
    ensures qaPairs == Segmented(lines, headings, promptPrefix)
    ensures |qaPairs| <= |headings| - 1
    ensures forall p :: p in qaPairs ==> p.completion != [] && Stripped(p.completion)
  {
    ghost var all := Candidates(lines, headings, promptPrefix);
    qaPairs := [];
    for i := 0 to |headings| - 1
      invariant qaPairs == KeepNonEmpty(all[..i])
    {
      var startLine := headings[i].lineNumber + 1;
      var endLine := FindEndLine(headings, i);
      SectionBounds(headings, |lines|, i);
      var promptHeadings := Titles(headings[..i + 1]);
      var prompt := promptPrefix + Join(PromptSeparator, promptHeadings);
      var completionLines := lines[startLine..endLine];
      var completion := Strip(Join("\n", completionLines));
      SectionAt(lines, headings, promptPrefix, i);
      KeepNonEmptyStep(all, i);
      if completion != [] {
        qaPairs := qaPairs + [QaPair(prompt, completion)];
      }
    }
    assert all[..|headings| - 1] == all;
    SegmentedCompletions(lines, headings, promptPrefix);
  }

  /** The candidate record of heading `i`, spelled out as the loop builds it. */
  lemma SectionAt(lines: seq<string>, hs: seq<Heading>, promptPrefix: string, i: nat)
    requires IsHeadingList(hs, |lines|) && i < |hs| - 1
    ensures hs[i].lineNumber + 1 <= EndLine(hs, i) <= |lines|
    ensures Candidates(lines, hs, promptPrefix)[i]
      == QaPair(promptPrefix + Join(PromptSeparator, Titles(hs[..i + 1])),
                Strip(Join("\n", lines[hs[i].lineNumber + 1..EndLine(hs, i)])))
  {
    SectionBounds(hs, |lines|, i);
  }

  // ---------------------------------------------------------------------------
  // Properties of the records.

  /** Each record comes from a real heading whose completion is non-empty
      and already stripped; conversely every such heading yields its record. */
  lemma SegmentedCompletions(lines: seq<string>, hs: seq<Heading>, promptPrefix: string)
    requires IsHeadingList(hs, |lines|)
    ensures forall p :: p in Segmented(lines, hs, promptPrefix) ==>
      p.completion != [] && Stripped(p.completion)
      && exists i :: 0 <= i < |hs| - 1 && p == Section(lines, hs, promptPrefix, i)
    ensures forall i :: 0 <= i < |hs| - 1 && Completion(lines, hs, i) != [] ==>
      Section(lines, hs, promptPrefix, i) in Segmented(lines, hs, promptPrefix)
  {
    var all := Candidates(lines, hs, promptPrefix);
    KeepNonEmptyMembers(all);
    forall p | p in Segmented(lines, hs, promptPrefix)
      ensures p.completion != [] && Stripped(p.completion)
      ensures exists i :: 0 <= i < |hs| - 1 && p == Section(lines, hs, promptPrefix, i)
    {
      var i :| 0 <= i < |all| && all[i] == p;
    }
    forall i | 0 <= i < |hs| - 1 && Completion(lines, hs, i) != []
      ensures Section(lines, hs, promptPrefix, i) in Segmented(lines, hs, promptPrefix)
    {
      assert all[i] in all;
    }
  }

  /** The prompt prefix changes prompts only: the records segmented with a
      prefix are those segmented without one, with the prefix put in front
      of every prompt, and the completions and their number unchanged. */
  lemma SegmentedWithPrefix(lines: seq<string>, hs: seq<Heading>, promptPrefix: string)
    requires IsHeadingList(hs, |lines|)
    ensures Segmented(lines, hs, promptPrefix) == AddPrefix(promptPrefix, Segmented(lines, hs, ""))
  {
    var with := Candidates(lines, hs, promptPrefix);
    var bare := Candidates(lines, hs, "");
    forall i | 0 <= i < |with|
      ensures with[i] == AddPrefix(promptPrefix, bare)[i]
    {
      var joined := Join(PromptSeparator, Titles(hs[..i + 1]));
      assert "" + joined == joined;
    }
    assert with == AddPrefix(promptPrefix, bare);
    KeepNonEmptyPrefixed(promptPrefix, bare);
  }
}
