/** The Python string operations the heading segmenter is built from:
    `text.split('\n')`, `sep.join(parts)` and `s.strip()`, on strings as
    sequences of characters, with Python's whitespace set written out. */
module PyText {

  /** Python's whitespace: the characters for which `str.isspace()` holds,
      which are also the characters `\s` matches in a `str` pattern. */
  predicate IsSpace(c: char) {
    ('\t' <= c <= '\r') || ('\U{1C}' <= c <= ' ') || c == '\U{85}' || c == '\U{A0}'
    || c == '\U{1680}' || ('\U{2000}' <= c <= '\U{200A}') || c == '\U{2028}'
    || c == '\U{2029}' || c == '\U{202F}' || c == '\U{205F}' || c == '\U{3000}'
  }

  /** Every character of `s` is whitespace (vacuously so for ""). */
  predicate AllSpace(s: string) {
    forall k :: 0 <= k < |s| ==> IsSpace(s[k])
  }

  /** `s.split('\n')`: the pieces between newlines; never an empty list,
      and "" splits to [""]. */
  function Split(s: string): (parts: seq<string>)
    ensures |parts| >= 1
    ensures forall k :: 0 <= k < |parts| ==> '\n' !in parts[k]
  {
    if s == [] then [""]
    else
      var rest := Split(s[1..]);
      if s[0] == '\n' then [""] + rest
      else [[s[0]] + rest[0]] + rest[1..]
  }

  /** `sep.join(parts)`: the parts with `sep` between consecutive ones. */
  function Join(sep: string, parts: seq<string>): string
  {
    if |parts| == 0 then ""
    else if |parts| == 1 then parts[0]
    else parts[0] + sep + Join(sep, parts[1..])
  }

  /** How many whitespace characters `s` starts with. */
  function LeadingSpaces(s: string): (n: nat)
    ensures n <= |s|
    ensures forall k :: 0 <= k < n ==> IsSpace(s[k])
    ensures n == |s| || !IsSpace(s[n])
  {
    if s != [] && IsSpace(s[0]) then 1 + LeadingSpaces(s[1..]) else 0
  }

  /** How many whitespace characters `s` ends with. */
  function TrailingSpaces(s: string): (n: nat)
    ensures n <= |s|
    ensures forall k :: |s| - n <= k < |s| ==> IsSpace(s[k])
    ensures n == |s| || !IsSpace(s[|s| - n - 1])
  {
    if s != [] && IsSpace(s[|s| - 1]) then 1 + TrailingSpaces(s[..|s| - 1]) else 0
  }

  /** `s.lstrip()`. */
  function TrimStart(s: string): string {
    s[LeadingSpaces(s)..]
  }

  /** `s.rstrip()`. */
  function TrimEnd(s: string): string {
    s[..|s| - TrailingSpaces(s)]
  }

  /** `s` neither starts nor ends with whitespace. */
  predicate Stripped(s: string) {
    s == [] || (!IsSpace(s[0]) && !IsSpace(s[|s| - 1]))
  }

  /** `s.strip()`: empty exactly when `s` is all whitespace, and otherwise
      starting and ending with a non-whitespace character. */
  function Strip(s: string): (r: string)
    ensures r == [] <==> AllSpace(s)
    ensures Stripped(r)
  {
    TrimBoth(s);
    TrimEnd(TrimStart(s))
  }

  /** Trimming both ends gives nothing exactly when `s` is all whitespace,
      and otherwise leaves no whitespace at either end. */
  lemma TrimBoth(s: string)
    ensures TrimEnd(TrimStart(s)) == [] <==> AllSpace(s)
    ensures Stripped(TrimEnd(TrimStart(s)))
  {
    var lo := LeadingSpaces(s);
    var t := s[lo..];
    var n := TrailingSpaces(t);
    var r := t[..|t| - n];
    assert TrimEnd(TrimStart(s)) == r;
    if r == [] {
      assert lo == |s|;
    } else {
      assert t[|t| - n - 1] == s[lo + |t| - n - 1];
      assert r[0] == t[0] == s[lo];
    }
  }

  /** A concatenation is all whitespace exactly when both parts are. */
  lemma AllSpaceConcat(a: string, b: string)
    ensures AllSpace(a + b) <==> AllSpace(a) && AllSpace(b)
  {
    if AllSpace(a + b) {
      assert forall k :: 0 <= k < |a| ==> (a + b)[k] == a[k];
      assert forall k :: 0 <= k < |b| ==> (a + b)[|a| + k] == b[k];
    }
  }

  // ---------------------------------------------------------------------------
  // Split and Join with "\n" are inverse to each other.

  /** Joining the pieces of a split with "\n" gives back the text. */
  lemma {:induction false} JoinSplit(s: string)
    ensures Join("\n", Split(s)) == s
  {
    if s != [] {
      var rest := Split(s[1..]);
      JoinSplit(s[1..]);
      if s[0] == '\n' {
        assert Split(s) == [""] + rest;
        assert ([""] + rest)[1..] == rest;
      } else {
        var parts := [[s[0]] + rest[0]] + rest[1..];
        assert Split(s) == parts;
        if |rest| > 1 {
          assert parts[1..] == rest[1..];
          assert Join("\n", rest) == rest[0] + "\n" + Join("\n", rest[1..]);
        }
      }
    }
  }

  /** Splitting `p + t`, where `p` holds no newline, glues `p` onto the first piece. */
  lemma {:induction false} SplitPrepend(p: string, t: string)
    requires '\n' !in p
    ensures Split(p + t) == [p + Split(t)[0]] + Split(t)[1..]
  {
    if p != [] {
      var st := Split(t);
      SplitPrepend(p[1..], t);
      var tail := Split(p[1..] + t);
      assert tail == [p[1..] + st[0]] + st[1..];
      assert (p + t)[0] == p[0] != '\n';
      assert (p + t)[1..] == p[1..] + t;
      assert Split(p + t) == [[p[0]] + tail[0]] + tail[1..];
      assert tail[1..] == st[1..];
      assert [p[0]] + (p[1..] + st[0]) == p + st[0];
    } else {
      var st := Split(t);
      assert p + t == t && p + st[0] == st[0];
      assert st == [st[0]] + st[1..];
    }
  }

  /** Splitting the "\n"-join of newline-free pieces gives back the pieces. */
  lemma {:induction false} SplitJoin(parts: seq<string>)
    requires |parts| >= 1
    requires forall k :: 0 <= k < |parts| ==> '\n' !in parts[k]
    ensures Split(Join("\n", parts)) == parts
  {
    if |parts| == 1 {
      SplitPrepend(parts[0], "");
      assert parts[0] + "" == parts[0];
    } else {
      var t := Join("\n", parts[1..]);
      SplitJoin(parts[1..]);
      assert Join("\n", parts) == parts[0] + ("\n" + t);
      SplitPrepend(parts[0], "\n" + t);
      assert ("\n" + t)[1..] == t;
      assert Split("\n" + t) == [""] + parts[1..];
      assert parts[0] + "" == parts[0];
      assert parts == [parts[0]] + parts[1..];
    }
  }

  /** Joining one more part appends the separator and that part. */
  lemma {:induction false} JoinAppend(sep: string, parts: seq<string>, x: string)
    requires |parts| >= 1
    ensures Join(sep, parts + [x]) == Join(sep, parts) + sep + x
  {
    var all := parts + [x];
    assert all[0] == parts[0];
    if |parts| == 1 {
      assert all[1..] == [x];
    } else {
      assert all[1..] == parts[1..] + [x];
      JoinAppend(sep, parts[1..], x);
    }
  }

  // ---------------------------------------------------------------------------
  // Properties of strip.

  /** The stripped text is a contiguous piece of the original whose
      surroundings are all whitespace. */
  lemma StripIsSlice(s: string)
    ensures exists lo ::
      (0 <= lo <= lo + |Strip(s)| <= |s| && Strip(s) == s[lo..lo + |Strip(s)|]
       && AllSpace(s[..lo]) && AllSpace(s[lo + |Strip(s)|..]))
  {
    var t := TrimStart(s);
    var lo := |s| - |t|;
    var r := TrimEnd(t);
    assert r == Strip(s);
    assert t == s[lo..];
    assert r == s[lo..lo + |r|];
    assert t[|r|..] == s[lo + |r|..];
    assert AllSpace(s[..lo]);
  }

  /** Strip leaves a string that neither starts nor ends with whitespace
      unchanged. */
  lemma StrippedUnchanged(s: string)
    requires Stripped(s)
    ensures Strip(s) == s
  {
    if s != [] {
      assert TrimStart(s) == s;
      assert TrimEnd(s) == s;
    }
  }

  /** Stripping twice is stripping once. */
  lemma StripIdempotent(s: string)
    ensures Strip(Strip(s)) == Strip(s)
  {
    StrippedUnchanged(Strip(s));
  }

  /** A string that starts with a non-whitespace character keeps it first
      when stripped. */
  lemma StripKeepsFirst(s: string)
    requires s != [] && !IsSpace(s[0])
    ensures Strip(s) != [] && Strip(s)[0] == s[0]
  {
    assert TrimStart(s) == s;
    assert !AllSpace(s);
    var r := TrimEnd(s);
    assert r == s[..|r|];
  }

  /** Stripping after removing the leading whitespace is the same as stripping. */
  lemma StripAfterTrimStart(s: string)
    ensures Strip(TrimStart(s)) == Strip(s)
  {
    var t := TrimStart(s);
    assert t == [] || !IsSpace(t[0]);
    assert TrimStart(t) == t;
  }

  /** A "\n"-join is all whitespace exactly when every piece is. */
  lemma {:induction false} AllSpaceJoin(parts: seq<string>)
    ensures AllSpace(Join("\n", parts)) <==> forall k :: 0 <= k < |parts| ==> AllSpace(parts[k])
  {
    if |parts| > 1 {
      AllSpaceJoin(parts[1..]);
      var t := Join("\n", parts[1..]);
      var whole := parts[0] + "\n" + t;
      assert Join("\n", parts) == whole;
      assert IsSpace('\n');
      if AllSpace(whole) {
        assert forall k :: 0 <= k < |parts[0]| ==> whole[k] == parts[0][k];
        assert forall k :: 0 <= k < |t| ==> whole[|parts[0]| + 1 + k] == t[k];
        assert AllSpace(parts[0]) && AllSpace(t);
        forall k | 0 <= k < |parts|
          ensures AllSpace(parts[k])
        {
          if k > 0 { assert parts[k] == parts[1..][k - 1]; }
        }
      }
      if forall k :: 0 <= k < |parts| ==> AllSpace(parts[k]) {
        assert AllSpace(parts[0]);
        assert forall k :: 0 <= k < |parts| - 1 ==> parts[1..][k] == parts[k + 1];
        forall k | 0 <= k < |whole|
          ensures IsSpace(whole[k])
        {
          if k < |parts[0]| {
            assert whole[k] == parts[0][k];
          } else if k > |parts[0]| {
            assert whole[k] == t[k - |parts[0]| - 1];
          }
        }
      }
    }
  }
}
