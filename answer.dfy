/**
 * OllamaClient.extractFinalAnswer: the answer text a caller sees, cut out of the raw model
 * output by the pattern (?is)Answer:\s*(.+) and a word-count fallback.
 */
module Extraction {
  import opened Wrappers
  import opened JavaText

  /** The fixed reply for an output that holds no usable answer. */
  const Placeholder: string := "I couldn't generate a complete " + "answer. Please try again."

  /** The marker, lower-cased. */
  const Marker: string := "answer:"

  /** The marker occurs at i, ignoring ASCII case. */
  predicate MarkerAt(s: string, i: nat) {
    i + |Marker| <= |s| && forall k :: 0 <= k < |Marker| ==> LowerAscii(s[i + k]) == Marker[k]
  }

  /**
   * Matcher.find() for (?is)Answer:\s*(.+), scanning from position from: the first i whose
   * marker is followed by at least one unit, since (.+) needs one.
   */
  function FindAnswer(s: string, from: nat): (r: Option<nat>)
    ensures r.Some? ==> from <= r.value && r.value + |Marker| < |s| && MarkerAt(s, r.value)
    decreases |s| - from
  {
    if from + |Marker| >= |s| then None
    else if MarkerAt(s, from) then Some(from)
    else FindAnswer(s, from + 1)
  }

  /** The first index at or after from that is not \s, or |s|. */
  function SkipRegexSpace(s: string, from: nat): (j: nat)
    requires from <= |s|
    ensures from <= j <= |s|
    ensures j < |s| ==> !IsRegexSpace(s[j])
    ensures forall k :: from <= k < j ==> IsRegexSpace(s[k])
    decreases |s| - from
  {
    if from < |s| && IsRegexSpace(s[from]) then SkipRegexSpace(s, from + 1) else from
  }

  /**
   * group(1) of a match at i: the greedy \s* takes the whole run of \s after the colon, and
   * gives back its last unit when the run reaches the end, since (.+) needs one.
   */
  function Group1(s: string, i: nat): string
    requires i + |Marker| < |s|
  {
    var j := SkipRegexSpace(s, i + |Marker|);
    if j < |s| then s[j..] else s[|s| - 1..]
  }

  /** extractFinalAnswer(text). */
  function ExtractFinalAnswer(text: Option<string>): string {
    match text
    case None => ""
    case Some(s) =>
      match FindAnswer(s, 0)
      case Some(i) =>
        var after := Trim(Group1(s, i));
        if after == "" || EqualsIgnoreCase(after, "Answer") then
          var cleaned := Trim(s);
          if |cleaned| > 10 then cleaned else Placeholder
        else after
      case None =>
        var trimmed := Trim(s);
        if SplitLength(trimmed) <= 2 then Placeholder else trimmed
  }

  // ---------------------------------------------------------------------------------------
  // What find() matches

  lemma {:induction false} FindAnswerFrom(s: string, from: nat, i: nat)
    requires from <= i
    ensures FindAnswer(s, from) == Some(i) <==>
      (MarkerAt(s, i) && i + |Marker| < |s| && forall j :: from <= j < i ==> !MarkerAt(s, j))
    decreases |s| - from
  {
    var leftmost := MarkerAt(s, i) && i + |Marker| < |s| && forall j :: from <= j < i ==> !MarkerAt(s, j);
    if from + |Marker| >= |s| {
      assert FindAnswer(s, from) == None;
      assert !leftmost;
    } else if MarkerAt(s, from) {
      assert FindAnswer(s, from) == Some(from);
      assert leftmost ==> i == from;
    } else {
      assert FindAnswer(s, from) == FindAnswer(s, from + 1);
      if from < i {
        FindAnswerFrom(s, from + 1, i);
        assert leftmost <==>
          (MarkerAt(s, i) && i + |Marker| < |s| && forall j :: from + 1 <= j < i ==> !MarkerAt(s, j));
      } else {
        assert !leftmost;
        assert FindAnswer(s, from + 1) != Some(i);
      }
    }
  }

  /** find() succeeds at i exactly when i is the leftmost marker and a unit follows it. */
  lemma FindIsLeftmostMarker(s: string, i: nat)
    ensures FindAnswer(s, 0) == Some(i) <==>
      (MarkerAt(s, i) && i + |Marker| < |s| && forall j :: 0 <= j < i ==> !MarkerAt(s, j))
  {
    FindAnswerFrom(s, 0, i);
  }

  lemma {:induction false} FindAnswerNoneFrom(s: string, from: nat)
    ensures FindAnswer(s, from) == None <==>
      forall j: nat :: from <= j && MarkerAt(s, j) ==> j + |Marker| == |s|
    decreases |s| - from
  {
    if from + |Marker| >= |s| {
    } else if !MarkerAt(s, from) {
      FindAnswerNoneFrom(s, from + 1);
      assert forall j: nat :: from <= j && MarkerAt(s, j) ==> j == from || from + 1 <= j;
    }
  }

  /** find() fails exactly when every marker in s ends the string. */
  lemma FindFailsOnlyAtEnd(s: string)
    ensures FindAnswer(s, 0) == None <==> forall j: nat :: MarkerAt(s, j) ==> j + |Marker| == |s|
  {
    FindAnswerNoneFrom(s, 0);
  }

  /** The trimmed group(1) is the trimmed remainder after the colon. */
  lemma Group1Trim(s: string, i: nat)
    requires i + |Marker| < |s|
    ensures Trim(Group1(s, i)) == Trim(s[i + |Marker|..])
  {
    var from := i + |Marker|;
    var j := SkipRegexSpace(s, from);
    forall k | from <= k < j ensures IsTrimSpace(s[k]) {
      RegexSpaceIsTrimmed(s[k]);
    }
    if j < |s| {
      TrimSkipsLeading(s, from, j);
    } else {
      TrimSkipsLeading(s, from, |s| - 1);
    }
  }

  // ---------------------------------------------------------------------------------------
  // The three outcomes

  /**
   * A leftmost marker with text after it: the answer is everything after its colon, later
   * markers included, trimmed.
   */
  lemma MarkerFound(s: string, i: nat)
    requires MarkerAt(s, i) && i + |Marker| < |s| && forall j :: 0 <= j < i ==> !MarkerAt(s, j)
    requires var after := Trim(s[i + |Marker|..]); after != "" && !EqualsIgnoreCase(after, "Answer")
    ensures ExtractFinalAnswer(Some(s)) == Trim(s[i + |Marker|..])
  {
    FindIsLeftmostMarker(s, i);
    Group1Trim(s, i);
  }

  /**
   * A bare label (nothing, or the word Answer, after the colon): the whole trimmed text when
   * it is longer than ten units, else the placeholder.
   */
  lemma BareLabel(s: string, i: nat)
    requires MarkerAt(s, i) && i + |Marker| < |s| && forall j :: 0 <= j < i ==> !MarkerAt(s, j)
    requires var after := Trim(s[i + |Marker|..]); after == "" || EqualsIgnoreCase(after, "Answer")
    ensures ExtractFinalAnswer(Some(s)) == if |Trim(s)| > 10 then Trim(s) else Placeholder
  {
    FindIsLeftmostMarker(s, i);
    Group1Trim(s, i);
  }

  /**
   * No match, which includes a marker that ends the text: two words or fewer give the
   * placeholder, anything longer is returned trimmed.
   */
  lemma NoMarker(s: string)
    requires forall j: nat :: MarkerAt(s, j) ==> j + |Marker| == |s|
    ensures ExtractFinalAnswer(Some(s)) == if SplitLength(Trim(s)) <= 2 then Placeholder else Trim(s)
  {
    FindFailsOnlyAtEnd(s);
  }

  lemma PlaceholderIsTrimmed()
    ensures Trim(Placeholder) == Placeholder
  {
    assert Placeholder[0] == 'I' && Placeholder[|Placeholder| - 1] == '.';
    TrimFixed(Placeholder);
  }

  /** Every answer of non-null text is already trimmed. */
  lemma AnswerIsTrimmed(s: string)
    ensures Trim(ExtractFinalAnswer(Some(s))) == ExtractFinalAnswer(Some(s))
  {
    var r := ExtractFinalAnswer(Some(s));
    match FindAnswer(s, 0)
    case Some(i) =>
      var after := Trim(Group1(s, i));
      if after != "" && !EqualsIgnoreCase(after, "Answer") {
        assert r == after;
        TrimIdempotent(Group1(s, i));
      } else if |Trim(s)| > 10 {
        assert r == Trim(s);
        TrimIdempotent(s);
      } else {
        assert r == Placeholder;
        PlaceholderIsTrimmed();
      }
    case None =>
      if SplitLength(Trim(s)) <= 2 {
        assert r == Placeholder;
        PlaceholderIsTrimmed();
      } else {
        assert r == Trim(s);
        TrimIdempotent(s);
      }
  }

  /** A text that is one word, or empty, gives the placeholder when it holds no match. */
  lemma OneWordIsIncomplete(s: string)
    requires FindAnswer(s, 0) == None
    requires forall k :: 0 <= k < |Trim(s)| ==> !IsRegexSpace(Trim(s)[k])
    ensures ExtractFinalAnswer(Some(s)) == Placeholder
  {
    SplitLengthOfWord(Trim(s));
  }

  /** The empty output (what generateRaw returns for a null prompt) counts as one word. */
  lemma EmptyIsIncomplete()
    ensures ExtractFinalAnswer(Some("")) == Placeholder
  {
    assert FindAnswer("", 0) == None;
  }

  /** An output that is exactly the marker does not match the pattern and falls to the word rule. */
  lemma LoneMarker(m: string)
    requires EqualsIgnoreCase(m, "Answer:")
    ensures FindAnswer(m, 0) == None
    ensures ExtractFinalAnswer(Some(m)) == Placeholder
  {
    assert |m| == |Marker|;
    SplitLengthOfWordChars(m);
  }

  lemma SplitLengthOfWordChars(m: string)
    requires EqualsIgnoreCase(m, "Answer:")
    ensures SplitLength(Trim(m)) == 1
  {
    assert forall k :: 0 <= k < |m| ==> LowerAscii(m[k]) == "answer:"[k];
    assert forall k :: 0 <= k < |m| ==> !IsTrimSpace(m[k]);
    TrimFixed(m);
    SplitLengthOfWord(m);
  }

  /** "Answer: " in front of a trimmed text that is not itself the label gives that text back. */
  lemma LabelledText(t: string)
    requires t != "" && !IsTrimSpace(t[0]) && !IsTrimSpace(t[|t| - 1])
    requires !EqualsIgnoreCase(t, "Answer")
    ensures ExtractFinalAnswer(Some("Answer: " + t)) == t
  {
    var s := "Answer: " + t;
    assert LowerAscii(s[0]) == 'a';
    assert MarkerAt(s, 0);
    TrimSkipsLeading(s, 7, 8);
    assert s[8..] == t;
    TrimFixed(t);
    MarkerFound(s, 0);
  }

  /** The worked case: a labelled answer is returned without its label. */
  lemma LabelledAnswer()
    ensures ExtractFinalAnswer(Some("Answer: Paris is the capital [1].")) == "Paris is the capital [1]."
  {
    var t := "Paris is the capital [1].";
    assert "Answer: Paris is the capital [1]." == "Answer: " + t;
    assert t[0] == 'P' && t[|t| - 1] == '.';
    LabelledText(t);
  }
}
