/** Prompt/completion records and the completion filter that `save_qa_pairs`
    applies before it writes one JSON line per record. */
module QaRecords {

  /** One training example: a `prompt` and the `completion` that answers it. */
  datatype QaPair = QaPair(prompt: string, completion: string)

  /** The records whose completion is non-empty, in their original order. */
  function KeepNonEmpty(pairs: seq<QaPair>): (kept: seq<QaPair>)
    ensures |kept| <= |pairs|
  {
    if pairs == [] then []
    else
      var last := pairs[|pairs| - 1];
      assert pairs == pairs[..|pairs| - 1] + [last];
      KeepNonEmpty(pairs[..|pairs| - 1]) + (if last.completion != [] then [last] else [])
  }

  /** The loop of `save_qa_pairs`: every record with a non-empty completion
      is written, in order, one line each; the JSON encoding of a record and
      the file it goes to are not modelled, so the result is the sequence of
      records written. */
  method SaveQaPairs(qaPairs: seq<QaPair>) returns (written: seq<QaPair>)
    ensures written == KeepNonEmpty(qaPairs)
    ensures forall p :: p in written ==> p in qaPairs && p.completion != []
  {
    written := [];
    for i := 0 to |qaPairs|
      invariant written == KeepNonEmpty(qaPairs[..i])
    {
      var pair := qaPairs[i];
      KeepNonEmptyStep(qaPairs, i);
      if pair.completion != [] {
        written := written + [pair];
      }
    }
    assert qaPairs[..|qaPairs|] == qaPairs;
    KeepNonEmptyMembers(qaPairs);
  }

  /** A record is kept exactly when it is one of the inputs and its
      completion is non-empty. */
  lemma {:induction false} KeepNonEmptyMembers(pairs: seq<QaPair>)
    ensures forall p :: p in KeepNonEmpty(pairs) <==> p in pairs && p.completion != []
  {
    if pairs != [] {
      var init := pairs[..|pairs| - 1];
      KeepNonEmptyMembers(init);
      assert pairs == init + [pairs[|pairs| - 1]];
    }
  }

  /** Filtering a concatenation filters each part: the filter keeps order. */
  lemma {:induction false} KeepNonEmptyAppend(a: seq<QaPair>, b: seq<QaPair>)
    ensures KeepNonEmpty(a + b) == KeepNonEmpty(a) + KeepNonEmpty(b)
  {
    if b == [] {
      assert a + b == a;
    } else {
      var init := b[..|b| - 1];
      var last := b[|b| - 1];
      var tail := if last.completion != [] then [last] else [];
      KeepNonEmptyAppend(a, init);
      assert (a + b)[..|a + b| - 1] == a + init;
      assert (a + b)[|a + b| - 1] == last;
      calc {
        KeepNonEmpty(a + b);
        KeepNonEmpty(a + init) + tail;
        KeepNonEmpty(a) + KeepNonEmpty(init) + tail;
        KeepNonEmpty(a) + (KeepNonEmpty(init) + tail);
      }
    }
  }

  /** One more record is kept exactly when its completion is non-empty. */
  lemma KeepNonEmptyStep(pairs: seq<QaPair>, i: nat)
    requires i < |pairs|
    ensures KeepNonEmpty(pairs[..i + 1])
      == KeepNonEmpty(pairs[..i]) + (if pairs[i].completion != [] then [pairs[i]] else [])
  {
    assert pairs[..i + 1][..i] == pairs[..i];
  }

  /** `promptPrefix` put in front of the prompt of every record. */
  function AddPrefix(promptPrefix: string, pairs: seq<QaPair>): seq<QaPair>
  {
    seq(|pairs|, k requires 0 <= k < |pairs| => QaPair(promptPrefix + pairs[k].prompt, pairs[k].completion))
  }

  /** Prefixing one more record appends its prefixed copy. */
  lemma AddPrefixAppend(promptPrefix: string, pairs: seq<QaPair>, x: QaPair)
    ensures AddPrefix(promptPrefix, pairs + [x])
      == AddPrefix(promptPrefix, pairs) + [QaPair(promptPrefix + x.prompt, x.completion)]
  {
  }

  /** Prefixing prompts and filtering commute: the filter looks at
      completions only, which the prefix leaves alone. */
  lemma {:induction false} KeepNonEmptyPrefixed(promptPrefix: string, pairs: seq<QaPair>)
    ensures KeepNonEmpty(AddPrefix(promptPrefix, pairs)) == AddPrefix(promptPrefix, KeepNonEmpty(pairs))
  {
    if pairs != [] {
      var n := |pairs|;
      var init := pairs[..n - 1];
      var x := pairs[n - 1];
      var prefixed := AddPrefix(promptPrefix, pairs);
      KeepNonEmptyPrefixed(promptPrefix, init);
      assert prefixed[..n - 1] == AddPrefix(promptPrefix, init);
      assert prefixed[n - 1] == QaPair(promptPrefix + x.prompt, x.completion);
      if x.completion != [] {
        AddPrefixAppend(promptPrefix, KeepNonEmpty(init), x);
      }
    }
  }

  /** A sequence whose completions are all non-empty passes the filter unchanged. */
  lemma {:induction false} KeepNonEmptyKeepsAll(pairs: seq<QaPair>)
    requires forall k :: 0 <= k < |pairs| ==> pairs[k].completion != []
    ensures KeepNonEmpty(pairs) == pairs
  {
    if pairs != [] {
      var init := pairs[..|pairs| - 1];
      KeepNonEmptyKeepsAll(init);
      assert pairs == init + [pairs[|pairs| - 1]];
    }
  }

  /** Filtering twice is filtering once. */
  lemma KeepNonEmptyIdempotent(pairs: seq<QaPair>)
    ensures KeepNonEmpty(KeepNonEmpty(pairs)) == KeepNonEmpty(pairs)
  {
    var kept := KeepNonEmpty(pairs);
    KeepNonEmptyMembers(pairs);
    assert forall k :: 0 <= k < |kept| ==> kept[k] in kept;
    KeepNonEmptyKeepsAll(kept);
  }
}
