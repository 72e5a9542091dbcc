/** Heading extraction: the first loop of `parse_markdown_headings`, which
    matches every line against `^(#{1,6})\s*(.*)` and records a heading
    (level, stripped title, line number) for each match, then appends the
    level-0 end-of-document sentinel. */
module Headings {
  import opened PyText

  datatype Option<T> = None | Some(value: T)

  /** One recorded heading; `lineNumber` is the zero-based index of its line. */
  datatype Heading = Heading(level: nat, title: string, lineNumber: nat)

  /** The two capture groups of a successful match. */
  datatype Groups = Groups(hashes: string, rest: string)

  /** The deepest level the pattern can capture. */
  const MaxLevel: nat := 6

  /** Title of the artificial heading that closes the document. */
  const SentinelTitle: string := "END_OF_DOCUMENT"

  function Min(a: nat, b: nat): nat { if a <= b then a else b }

  /** The sentinel appended after the last line: level 0, at `lineCount`. */
  function Sentinel(lineCount: nat): Heading {
    Heading(0, SentinelTitle, lineCount)
  }

  /** Length of the run of '#' characters that `s` starts with. */
  function HashRun(s: string): (n: nat)
    ensures n <= |s|
    ensures forall k :: 0 <= k < n ==> s[k] == '#'
    ensures n == |s| || s[n] != '#'
  {
    if s != [] && s[0] == '#' then 1 + HashRun(s[1..]) else 0
  }

  /** The longest prefix of `s` without a newline (what `.*` consumes). */
  function UpToNewline(s: string): string
  {
    if s == [] || s[0] == '\n' then "" else [s[0]] + UpToNewline(s[1..])
  }

  /** On a string without a newline, `.*` takes all of it. */
  lemma {:induction false} UpToNewlineWhole(s: string)
    requires '\n' !in s
    ensures UpToNewline(s) == s
  {
    if s != [] {
      UpToNewlineWhole(s[1..]);
      assert s == [s[0]] + s[1..];
    }
  }

  /** `re.match(r'^(#{1,6})\s*(.*)', line)`: anchored at the first character,
      `#{1,6}` takes as many '#' as it can up to six, `\s*` all the whitespace
      after them and `.*` the rest up to a newline. */
  function MatchHeading(line: string): (m: Option<Groups>)
    ensures m.Some? <==> |line| > 0 && line[0] == '#'
    ensures m.Some? ==> 1 <= |m.value.hashes| <= MaxLevel
  {
    if |line| == 0 || line[0] != '#' then None
    else
      var n := Min(HashRun(line), MaxLevel);
      Some(Groups(line[..n], UpToNewline(TrimStart(line[n..]))))
  }

  /** The first group is the greedy run of one to six '#' the line starts
      with, and, on a line without a newline, the second group is all that
      follows it once the leading whitespace is skipped. */
  lemma MatchHeadingGroups(line: string)
    requires |line| > 0 && line[0] == '#'
    ensures var h := MatchHeading(line).value.hashes;
      1 <= |h| <= MaxLevel && |h| <= |line| && h == line[..|h|]
      && (forall k :: 0 <= k < |h| ==> h[k] == '#')
      && (|h| == MaxLevel || |h| == |line| || line[|h|] != '#')
    ensures '\n' !in line ==>
      MatchHeading(line).value.rest == TrimStart(line[|MatchHeading(line).value.hashes|..])
  {
    var n := Min(HashRun(line), MaxLevel);
    var after := TrimStart(line[n..]);
    if '\n' !in line {
      assert after == line[|line| - |after|..];
      UpToNewlineWhole(after);
    }
  }

  /** The body of the extraction loop for the line at `idx`: the heading it
      records, if any, with level `len(hashes)` and title `rest.strip()`. */
  function ParseLine(line: string, idx: nat): (h: Option<Heading>)
    ensures h.Some? <==> |line| > 0 && line[0] == '#'
    ensures h.Some? ==> h.value.lineNumber == idx && 1 <= h.value.level <= MaxLevel
  {
    var m := MatchHeading(line);
    if m.None? then None
    else
      Some(Heading(|m.value.hashes|, Strip(m.value.rest), idx))
  }

  /** A line is a heading exactly when it starts with '#'. Its level is the
      length of its leading run of '#', capped at six, so a run of seven or
      more still gives level 6 and keeps the surplus in the title; its title
      is the rest of the line, stripped, closing '#'s included. */
  lemma ParseLineClassifies(line: string, idx: nat)
    requires '\n' !in line
    ensures ParseLine(line, idx).Some? <==> |line| > 0 && line[0] == '#'
    ensures ParseLine(line, idx).Some? ==>
      var h := ParseLine(line, idx).value;
      h.level == Min(HashRun(line), MaxLevel) && h.title == Strip(line[h.level..])
  {
    var m := MatchHeading(line);
    if m.Some? {
      MatchHeadingGroups(line);
      StripAfterTrimStart(line[|m.value.hashes|..]);
    }
  }

  /** What one loop iteration appends: the heading, or nothing. */
  function Recorded(m: Option<Heading>): seq<Heading> {
    if m.Some? then [m.value] else []
  }

  /** The per-line results of the extraction loop, line by line. */
  function ParseAll(lines: seq<string>): seq<Option<Heading>>
  {
    seq(|lines|, i requires 0 <= i < |lines| => ParseLine(lines[i], i))
  }

  /** The headings the loop has appended after seeing the results `ms`. */
  function Collect(ms: seq<Option<Heading>>): seq<Heading> {
    if ms == [] then []
    else Collect(ms[..|ms| - 1]) + Recorded(ms[|ms| - 1])
  }

  /** One more iteration appends what the next result records. */
  lemma CollectStep(ms: seq<Option<Heading>>, idx: nat)
    requires idx < |ms|
    ensures Collect(ms[..idx + 1]) == Collect(ms[..idx]) + Recorded(ms[idx])
  {
    assert ms[..idx + 1][..idx] == ms[..idx];
  }

  /** The complete heading list: every heading line, then the sentinel. */
  function HeadingList(lines: seq<string>): seq<Heading> {
    Collect(ParseAll(lines)) + [Sentinel(|lines|)]
  }

  /** The shape the segmenter relies on: real headings at levels 1..6 on
      existing lines, line numbers strictly increasing, and the sentinel
      last at `lineCount`. */
  predicate IsHeadingList(hs: seq<Heading>, lineCount: nat) {
    |hs| >= 1
    && hs[|hs| - 1] == Sentinel(lineCount)
    && OrderedBelow(hs[..|hs| - 1], lineCount)
  }

  /** `for idx, line in enumerate(lines)` with the match and the append,
      then the sentinel. */
  method ExtractHeadings(lines: seq<string>) returns (headings: seq<Heading>)
    ensures headings == HeadingList(lines)
  {
    ghost var ms := ParseAll(lines);
    headings := [];
    for idx := 0 to |lines|
      invariant headings == Collect(ms[..idx])
    {
      var m := ParseLine(lines[idx], idx);
      assert ms[idx] == m;
      CollectStep(ms, idx);
      if m.Some? {
        headings := headings + [m.value];
      }
    }
    assert ms[..|lines|] == ms;
    headings := headings + [Sentinel(|lines|)];
  }

  // ---------------------------------------------------------------------------
  // Properties of the extracted list.

  /** Each per-line result, if any, is a heading at level 1..6 on its own line. */
  predicate NumberedByLine(ms: seq<Option<Heading>>) {
    forall i :: 0 <= i < |ms| && ms[i].Some? ==>
      ms[i].value.lineNumber == i && 1 <= ms[i].value.level <= MaxLevel
  }

  /** Real headings at levels 1..6 on lines before `bound`, in strictly
      increasing line order. */
  predicate OrderedBelow(hs: seq<Heading>, bound: nat) {
    (forall k :: 0 <= k < |hs| ==> 1 <= hs[k].level <= MaxLevel && hs[k].lineNumber < bound)
    && (forall a, b :: 0 <= a < b < |hs| ==> hs[a].lineNumber < hs[b].lineNumber)
  }

  /** Appending a heading on line `line` keeps a list of headings below it ordered. */
  lemma OrderedExtend(prev: seq<Heading>, h: Heading, line: nat)
    requires OrderedBelow(prev, line)
    requires 1 <= h.level <= MaxLevel && h.lineNumber == line
    ensures OrderedBelow(prev + [h], line + 1)
  {
    var cur := prev + [h];
    forall a, b | 0 <= a < b < |cur|
      ensures cur[a].lineNumber < cur[b].lineNumber
    {
      if b == |prev| {
        assert cur[a] == prev[a];
      } else {
        assert cur[a] == prev[a] && cur[b] == prev[b];
      }
    }
  }

  /** The collected headings lie on the lines seen, at levels 1..6, in
      strictly increasing line order. */
  lemma {:induction false} CollectOrdered(ms: seq<Option<Heading>>)
    requires NumberedByLine(ms)
    ensures OrderedBelow(Collect(ms), |ms|)
  {
    if ms != [] {
      var init := ms[..|ms| - 1];
      assert NumberedByLine(init) by {
        assert forall i :: 0 <= i < |init| ==> init[i] == ms[i];
      }
      CollectOrdered(init);
      var last := ms[|ms| - 1];
      if last.Some? {
        OrderedExtend(Collect(init), last.value, |ms| - 1);
      }
    }
  }

  /** Every collected heading is the result of the line it sits on. */
  lemma {:induction false} CollectSound(ms: seq<Option<Heading>>)
    requires NumberedByLine(ms)
    ensures forall k :: 0 <= k < |Collect(ms)| ==>
      Collect(ms)[k].lineNumber < |ms| && ms[Collect(ms)[k].lineNumber] == Some(Collect(ms)[k])
  {
    if ms != [] {
      var init := ms[..|ms| - 1];
      assert NumberedByLine(init) by {
        assert forall i :: 0 <= i < |init| ==> init[i] == ms[i];
      }
      CollectSound(init);
      var prev := Collect(init);
      var cur := Collect(ms);
      assert cur == prev + Recorded(ms[|ms| - 1]);
      forall k | 0 <= k < |cur|
        ensures cur[k].lineNumber < |ms| && ms[cur[k].lineNumber] == Some(cur[k])
      {
        if k < |prev| {
          assert cur[k] == prev[k];
          assert init[prev[k].lineNumber] == ms[prev[k].lineNumber];
        } else {
          assert cur[k] == ms[|ms| - 1].value;
        }
      }
    }
  }

  /** Every line whose result is a heading has that heading collected. */
  lemma {:induction false} CollectComplete(ms: seq<Option<Heading>>, idx: nat)
    requires NumberedByLine(ms)
    requires idx < |ms| && ms[idx].Some?
    ensures exists k :: 0 <= k < |Collect(ms)| && Collect(ms)[k].lineNumber == idx
  {
    var init := ms[..|ms| - 1];
    var prev := Collect(init);
    var cur := Collect(ms);
    assert cur == prev + Recorded(ms[|ms| - 1]);
    if idx < |ms| - 1 {
      assert NumberedByLine(init) by {
        assert forall i :: 0 <= i < |init| ==> init[i] == ms[i];
      }
      assert init[idx] == ms[idx];
      CollectComplete(init, idx);
      var k :| 0 <= k < |prev| && prev[k].lineNumber == idx;
      assert cur[k] == prev[k];
    } else {
      assert cur[|prev|] == ms[idx].value;
    }
  }

  /** The per-line results of the extraction are numbered by their lines. */
  lemma ParseAllNumbered(lines: seq<string>)
    ensures NumberedByLine(ParseAll(lines))
  {
  }

  /** The extracted list has the shape the segmenter relies on: ordered by
      line number and terminated by the level-0 sentinel at `len(lines)`. */
  lemma HeadingListIsWellFormed(lines: seq<string>)
    ensures IsHeadingList(HeadingList(lines), |lines|)
  {
    ParseAllNumbered(lines);
    CollectOrdered(ParseAll(lines));
  }

  /** With the sentinel appended, the collected headings still record
      line `idx` exactly when its result is a heading. */
  lemma CollectWithSentinel(ms: seq<Option<Heading>>, idx: nat)
    requires NumberedByLine(ms)
    requires idx < |ms|
    ensures var hs := Collect(ms) + [Sentinel(|ms|)];
      (ms[idx].Some? <==> exists k :: 0 <= k < |hs| - 1 && hs[k].lineNumber == idx)
      && forall k :: 0 <= k < |hs| - 1 && hs[k].lineNumber == idx ==> ms[idx] == Some(hs[k])
  {
    CollectSound(ms);
    var c := Collect(ms);
    var hs := c + [Sentinel(|ms|)];
    assert forall k :: 0 <= k < |c| ==> hs[k] == c[k];
    if ms[idx].Some? {
      CollectComplete(ms, idx);
      var k :| 0 <= k < |c| && c[k].lineNumber == idx;
      assert hs[k] == c[k];
    }
  }

  /** The heading list records exactly the lines that start with '#', each
      as ParseLine reads it, and nothing else before the sentinel. */
  lemma HeadingListRecordsHeadingLines(lines: seq<string>, idx: nat)
    requires idx < |lines|
    ensures (|lines[idx]| > 0 && lines[idx][0] == '#') <==>
      exists k :: 0 <= k < |HeadingList(lines)| - 1 && HeadingList(lines)[k].lineNumber == idx
    ensures forall k :: 0 <= k < |HeadingList(lines)| - 1 && HeadingList(lines)[k].lineNumber == idx ==>
      ParseLine(lines[idx], idx) == Some(HeadingList(lines)[k])
  {
    var ms := ParseAll(lines);
    ParseAllNumbered(lines);
    CollectWithSentinel(ms, idx);
    assert HeadingList(lines) == Collect(ms) + [Sentinel(|ms|)];
    assert ms[idx] == ParseLine(lines[idx], idx);
  }

  // ---------------------------------------------------------------------------
  // Edge cases of the heading pattern.

  /** A run of seven or more '#' is still a heading, at level 6, and the
      '#'s beyond the sixth open its title. */
  lemma LongRunIsLevelSix(line: string, idx: nat)
    requires '\n' !in line && HashRun(line) > MaxLevel
    ensures ParseLine(line, idx).Some?
    ensures ParseLine(line, idx).value.level == MaxLevel
    ensures ParseLine(line, idx).value.title != [] && ParseLine(line, idx).value.title[0] == '#'
  {
    var rest := line[MaxLevel..];
    assert rest[0] == '#';
    StripKeepsFirst(rest);
    ParseLineClassifies(line, idx);
  }

  /** A lone '#' is a level-1 heading with an empty title. */
  lemma LoneHashHasEmptyTitle()
    ensures ParseLine("#", 3) == Some(Heading(1, "", 3))
  {
    ParseLineClassifies("#", 3);
    assert HashRun("#") == 1 by { assert "#"[1..] == ""; }
    assert "#"[1..] == "";
  }

  /** No space is needed after the '#'s: when a run of at most six '#' is
      followed by a character that is not whitespace, the title starts with
      that character. */
  lemma NoSpaceNeeded(line: string, idx: nat)
    requires '\n' !in line && 0 < HashRun(line) <= MaxLevel && HashRun(line) < |line|
    requires !IsSpace(line[HashRun(line)])
    ensures ParseLine(line, idx).Some?
    ensures ParseLine(line, idx).value.level == HashRun(line)
    ensures ParseLine(line, idx).value.title != []
    ensures ParseLine(line, idx).value.title[0] == line[HashRun(line)]
  {
    var rest := line[HashRun(line)..];
    assert rest[0] == line[HashRun(line)];
    StripKeepsFirst(rest);
    ParseLineClassifies(line, idx);
  }

  /** A line that starts with whitespace, however many '#' follow, is not a
      heading: the pattern is anchored at the first character. */
  lemma IndentedIsNotHeading(line: string, idx: nat)
    requires |line| > 0 && IsSpace(line[0])
    ensures ParseLine(line, idx) == None
  {
  }
}
