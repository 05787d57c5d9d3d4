/** `split_text_for_telegram`: cuts a reply into messages of at most
    `max_length` characters, preferring sentence boundaries.

    The sentence splitter (`re.split(r'(?<=[.!؟])\s+', ...)`) is a function;
    the chunking loop is specified by `Chunk`, a fold of `Step` over the
    sentences, and implemented by the method `SplitForTelegram`, which keeps
    the source's list appends, reassignments and inner `while` loop. */
module Chunker {
  import opened Text

  // ---------------------------------------------------------------------
  // The sentence splitter
  // ---------------------------------------------------------------------

  /** The characters of the look-behind class `[.!؟]` (U+061F is the Arabic question mark). */
  predicate IsTerminator(c: char) {
    c == '.' || c == '!' || c == '\U{061F}'
  }

  /** The pattern `(?<=[.!؟])\s+` can start matching at index `j` of `s`. */
  predicate BoundaryAt(s: string, j: int) {
    0 < j < |s| && IsTerminator(s[j - 1]) && IsSpace(s[j])
  }

  predicate HasBoundary(s: string) {
    exists j :: 0 < j < |s| && BoundaryAt(s, j)
  }

  /** The leftmost match position at or after `k`, or `|s|` when there is none. */
  function FirstBoundary(s: string, k: nat): (r: nat)
    requires k >= 1
    ensures r == |s| || (k <= r < |s| && BoundaryAt(s, r))
    ensures forall j :: k <= j < r ==> !BoundaryAt(s, j)
    decreases |s| - k
  {
    if k >= |s| then |s|
    else if BoundaryAt(s, k) then k
    else FirstBoundary(s, k + 1)
  }

  /** The end of the maximal whitespace run starting at `i` (what `\s+` consumes). */
  function SkipSpaces(s: string, i: nat): (j: nat)
    requires i <= |s|
    ensures i <= j <= |s|
    ensures Blank(s[i..j])
    ensures j == |s| || !IsSpace(s[j])
    decreases |s| - i
  {
    if i < |s| && IsSpace(s[i]) then SkipSpaces(s, i + 1) else i
  }

  /** `re.split(r'(?<=[.!؟])\s+', s)`: the pieces between the matches, each
      whitespace run that follows a terminator being consumed whole. */
  function Sentences(s: string): (r: seq<string>)
    ensures |r| >= 1
    decreases |s|
  {
    var i := FirstBoundary(s, 1);
    if i == |s| then [s]
    else [s[..i]] + Sentences(s[SkipSpaces(s, i)..])
  }

  /** The split drops only whitespace: the visible characters of the pieces,
      in order, are those of `s`. */
  lemma {:induction false} SentencesKeepVisible(s: string)
    ensures Visible(Concat(Sentences(s))) == Visible(s)
    decreases |s|
  {
    var i := FirstBoundary(s, 1);
    if i < |s| {
      var j := SkipSpaces(s, i);
      var rest := Sentences(s[j..]);
      SentencesKeepVisible(s[j..]);
      assert Sentences(s) == [s[..i]] + rest;
      ConcatAppend([s[..i]], rest);
      ConcatOne(s[..i]);
      assert s == s[..i] + s[i..j] + s[j..];
      VisibleAroundBlank(s[..i], s[i..j], s[j..]);
      VisibleAppend(s[..i], Concat(rest));
    } else {
      ConcatOne(s);
    }
  }

  /** Every piece is maximal: no piece still contains a split point, and
      every piece but the last ends with a terminator. */
  lemma {:induction false} SentencesAreMaximal(s: string)
    ensures forall p :: p in Sentences(s) ==> !HasBoundary(p)
    ensures forall k :: 0 <= k < |Sentences(s)| - 1 ==>
              Sentences(s)[k] != [] && IsTerminator(Sentences(s)[k][|Sentences(s)[k]| - 1])
    decreases |s|
  {
    var i := FirstBoundary(s, 1);
    if i < |s| {
      var j := SkipSpaces(s, i);
      SentencesAreMaximal(s[j..]);
      var head := s[..i];
      assert forall t :: BoundaryAt(head, t) ==> BoundaryAt(s, t);
      assert Sentences(s) == [head] + Sentences(s[j..]);
    } else {
    }
  }

  /** Splitting a stripped, non-blank text gives non-empty stripped sentences. */
  lemma {:induction false} SentencesOfStripped(s: string)
    requires s != [] && Stripped(s)
    ensures forall p :: p in Sentences(s) ==> p != [] && Stripped(p)
    decreases |s|
  {
    var i := FirstBoundary(s, 1);
    if i < |s| {
      var j := SkipSpaces(s, i);
      assert j < |s|;
      SentencesOfStripped(s[j..]);
      assert !IsSpace(s[i - 1]);
      assert Sentences(s) == [s[..i]] + Sentences(s[j..]);
    }
  }

  /** A text with no split point is a single sentence. */
  lemma {:induction false} SentencesOfUnbroken(s: string)
    requires !HasBoundary(s)
    ensures Sentences(s) == [s]
  {
  }

  /** The whitespace runs the split consumes, one between each two pieces. */
  function Gaps(s: string): (r: seq<string>)
    ensures |r| == |Sentences(s)| - 1
    decreases |s|
  {
    var i := FirstBoundary(s, 1);
    if i == |s| then []
    else
      var j := SkipSpaces(s, i);
      [s[i..j]] + Gaps(s[j..])
  }

  /** The pieces with the gaps put back between them. */
  function Weave(pieces: seq<string>, gaps: seq<string>): string
    requires |pieces| == |gaps| + 1
    decreases gaps
  {
    if gaps == [] then pieces[0]
    else pieces[0] + gaps[0] + Weave(pieces[1..], gaps[1..])
  }

  /** The pieces are the text's own substrings: putting the consumed runs back
      between them gives the text again. */
  lemma {:induction false} SentencesWeave(s: string)
    ensures Weave(Sentences(s), Gaps(s)) == s
    decreases |s|
  {
    var i := FirstBoundary(s, 1);
    if i < |s| {
      var j := SkipSpaces(s, i);
      SentencesWeave(s[j..]);
      var ps := Sentences(s);
      var gs := Gaps(s);
      assert ps == [s[..i]] + Sentences(s[j..]);
      assert gs == [s[i..j]] + Gaps(s[j..]);
      assert ps[1..] == Sentences(s[j..]) && gs[1..] == Gaps(s[j..]);
      assert Weave(ps, gs) == s[..i] + s[i..j] + s[j..];
      assert s == s[..i] + s[i..j] + s[j..];
    }
  }

  /** The first piece is a prefix of the text. */
  lemma {:induction false} FirstSentenceIsPrefix(s: string)
    ensures |Sentences(s)[0]| <= |s| && Sentences(s)[0] == s[..|Sentences(s)[0]|]
  {
    var i := FirstBoundary(s, 1);
    if i == |s| {
      assert s[..|s|] == s;
    }
  }

  /** A consumed run `gap` followed by the piece `next` is a whole run of
      whitespace: it is not empty, it is all whitespace, and `next` does not
      start with whitespace. */
  predicate WholeRun(gap: string, next: string)
  {
    gap != [] && Blank(gap) && (next == [] || !IsSpace(next[0]))
  }

  /** The first consumed run is a whole run. */
  lemma {:induction false} FirstGapIsWholeRun(s: string)
    requires FirstBoundary(s, 1) < |s|
    ensures |Gaps(s)| >= 1 && WholeRun(Gaps(s)[0], Sentences(s)[1])
  {
    var i := FirstBoundary(s, 1);
    var j := SkipSpaces(s, i);
    assert Gaps(s)[0] == s[i..j];
    assert Sentences(s)[1] == Sentences(s[j..])[0];
    FirstSentenceIsPrefix(s[j..]);
    var next := Sentences(s[j..])[0];
    if next != [] {
      assert next[0] == s[j..][0] == s[j];
    }
  }

  /** Every consumed run is a whole run of whitespace. */
  lemma {:induction false} GapsAreWholeRuns(s: string)
    ensures forall k :: 0 <= k < |Gaps(s)| ==> WholeRun(Gaps(s)[k], Sentences(s)[k + 1])
    decreases |s|
  {
    var i := FirstBoundary(s, 1);
    if i < |s| {
      var j := SkipSpaces(s, i);
      var ps := Sentences(s);
      var gs := Gaps(s);
      assert ps[1..] == Sentences(s[j..]);
      assert gs[1..] == Gaps(s[j..]);
      FirstGapIsWholeRun(s);
      GapsAreWholeRuns(s[j..]);
      forall k | 1 <= k < |gs|
        ensures WholeRun(gs[k], ps[k + 1])
      {
        assert gs[k] == gs[1..][k - 1] && ps[k + 1] == ps[1..][k];
      }
    }
  }

  // ---------------------------------------------------------------------
  // Specification of the chunking loop
  // ---------------------------------------------------------------------

  /** Where an over-long sentence is cut: `sentence.rfind(" ", 0, max - 1)`,
      or `max` when that finds nothing. */
  function CutIndex(s: string, max: nat): (k: nat)
    requires 1 <= max < |s|
    ensures k == max || (k < max - 1 && s[k] == ' ')
    ensures forall j :: k < j < max - 1 ==> s[j] != ' '
    ensures k == max ==> forall j :: 0 <= j < max - 1 ==> s[j] != ' '
  {
    var i := RFindSpace(s, max - 1);
    if i == -1 then max else i
  }

  /** The messages cut off an over-long sentence, and what is left of it. */
  datatype Split = Split(pieces: seq<string>, rest: string)

  /** The `while len(sentence) > max_length` loop: cut, strip both halves,
      emit the head, go on with the tail. */
  function HardSplit(s: string, max: nat): (r: Split)
    requires max >= 1
    ensures forall p :: p in r.pieces ==> |p| <= max
    ensures |r.rest| <= max
    ensures |s| > max ==> r.pieces != []
    ensures (s == [] || !IsSpace(s[0])) ==>
              (forall p :: p in r.pieces ==> p != []) && (r.rest == [] || !IsSpace(r.rest[0]))
    decreases |s|
  {
    if |s| <= max then Split([], s)
    else
      var k := CutIndex(s, max);
      assert k == 0 ==> s[k..] == s;
      var tail := HardSplit(Strip(s[k..]), max);
      Split([Strip(s[..k])] + tail.pieces, tail.rest)
  }

  /** The loop state: the messages emitted so far and the one being filled. */
  datatype Chunking = Chunking(parts: seq<string>, current: string)

  /** One iteration of the `for sentence in sentences` loop. */
  function Step(st: Chunking, sentence: string, max: nat): (r: Chunking)
    requires max >= 1
    ensures |st.parts| <= |r.parts|
    ensures |r.current| <= max || r.current == sentence
  {
    if |st.current| + |sentence| + 1 > max then
      if st.current != [] then
        Chunking(st.parts + [Strip(st.current)], sentence)
      else
        var split := HardSplit(sentence, max);
        Chunking(st.parts + split.pieces, split.rest)
    else if st.current != [] then
      Chunking(st.parts, st.current + (" " + sentence))
    else
      Chunking(st.parts, sentence)
  }

  /** The whole `for` loop, from state `st`. */
  function Fold(st: Chunking, sentences: seq<string>, max: nat): (r: Chunking)
    requires max >= 1
    ensures |st.parts| <= |r.parts|
    decreases sentences
  {
    if sentences == [] then st
    else Fold(Step(st, sentences[0], max), sentences[1..], max)
  }

  /** The sentences the loop runs over: `[""]` for an empty text. */
  function SentencesOf(text: string): (r: seq<string>)
    ensures r != []
  {
    if text != [] then Sentences(Strip(text)) else [""]
  }

  /** Between them the sentences hold exactly the visible characters of the
      text. */
  lemma {:induction false} SentencesOfKeepVisible(text: string)
    ensures Visible(Concat(SentencesOf(text))) == Visible(text)
  {
    if text != [] {
      SentencesKeepVisible(Strip(text));
      VisibleStrip(text);
    } else {
      ConcatOne("");
    }
  }

  /** What `split_text_for_telegram(text, max)` returns. */
  function Chunk(text: string, max: nat): (r: seq<string>)
    requires max >= 1
    ensures r != []
  {
    var st := Fold(Chunking([], ""), SentencesOf(text), max);
    var parts := if st.current != [] then st.parts + [Strip(st.current)] else st.parts;
    if parts == [] then [text] else parts
  }

  /** One iteration only appends to the emitted messages, and the message
      being filled never grows past `max` unless it is the sentence itself
      (joining happens only when the result fits). */
  lemma {:induction false} StepAppends(st: Chunking, sentence: string, max: nat)
    requires max >= 1
    ensures var r := Step(st, sentence, max);
      |st.parts| <= |r.parts| && r.parts[..|st.parts|] == st.parts
      && (|r.current| <= max || r.current == sentence)
  {
    var r := Step(st, sentence, max);
    if |st.current| + |sentence| + 1 > max {
      if st.current != [] {
        assert r.parts == st.parts + [Strip(st.current)];
      } else {
        assert r.parts == st.parts + HardSplit(sentence, max).pieces;
      }
    }
  }

  /** The whole loop only appends to the messages emitted before it. */
  lemma {:induction false} FoldAppends(st: Chunking, sentences: seq<string>, max: nat)
    requires max >= 1
    ensures var r := Fold(st, sentences, max);
      |st.parts| <= |r.parts| && r.parts[..|st.parts|] == st.parts
    decreases sentences
  {
    if sentences != [] {
      var next := Step(st, sentences[0], max);
      StepAppends(st, sentences[0], max);
      FoldAppends(next, sentences[1..], max);
      var r := Fold(next, sentences[1..], max);
      assert r.parts[..|st.parts|] == r.parts[..|next.parts|][..|st.parts|];
    }
  }

  // ---------------------------------------------------------------------
  // The imperative chunker
  // ---------------------------------------------------------------------

  lemma {:induction false} FoldAt(st: Chunking, ss: seq<string>, i: nat, max: nat)
    requires max >= 1 && i < |ss|
    ensures Fold(st, ss[i..], max) == Fold(Step(st, ss[i], max), ss[i + 1..], max)
  {
    assert ss[i..][1..] == ss[i + 1..];
  }

  /** One turn of the hard-split loop emits the head of `HardSplit(s, max)`. */
  lemma {:induction false} HardSplitAt(s: string, max: nat)
    requires 1 <= max < |s|
    ensures HardSplit(s, max).pieces
         == [Strip(s[..CutIndex(s, max)])] + HardSplit(Strip(s[CutIndex(s, max)..]), max).pieces
    ensures HardSplit(s, max).rest == HardSplit(Strip(s[CutIndex(s, max)..]), max).rest
  {
  }

  /** The inner `while len(sentence) > max_length` loop of
      `split_text_for_telegram`: appends the pieces cut off `sentence` to
      `parts` and returns what is left of the sentence. */
  method CutLongSentence(parts: seq<string>, sentence: string, maxLength: nat)
    returns (parts': seq<string>, rest: string)
    requires maxLength >= 1
    ensures parts' == parts + HardSplit(sentence, maxLength).pieces
    ensures rest == HardSplit(sentence, maxLength).rest
  {
    parts', rest := parts, sentence;
    while |rest| > maxLength
      invariant parts' + HardSplit(rest, maxLength).pieces == parts + HardSplit(sentence, maxLength).pieces
      invariant HardSplit(rest, maxLength).rest == HardSplit(sentence, maxLength).rest
      decreases |rest|
    {
      var splitIndex := RFindSpace(rest, maxLength - 1);
      if splitIndex == -1 {
        splitIndex := maxLength;
      }
      assert splitIndex == CutIndex(rest, maxLength);
      assert splitIndex == 0 ==> rest[splitIndex..] == rest;
      HardSplitAt(rest, maxLength);
      var piece := Strip(rest[..splitIndex]);
      AppendAssoc(parts', [piece], HardSplit(Strip(rest[splitIndex..]), maxLength).pieces);
      parts' := parts' + [piece];
      rest := Strip(rest[splitIndex..]);
    }
    assert parts' + [] == parts';
  }

  /** `split_text_for_telegram(text, max_length)`. */
  method SplitForTelegram(text: string, maxLength: nat) returns (parts: seq<string>)
    requires maxLength >= 1
    ensures parts == Chunk(text, maxLength)
  {
    parts := [];
    var current: string := "";
    var sentences := SentencesOf(text);
    for i := 0 to |sentences|
      invariant Fold(Chunking(parts, current), sentences[i..], maxLength)
             == Fold(Chunking([], ""), sentences, maxLength)
    {
      FoldAt(Chunking(parts, current), sentences, i, maxLength);
      ghost var was := Chunking(parts, current);
      var sentence := sentences[i];
      if |current| + |sentence| + 1 > maxLength {
        if current != [] {
          parts := parts + [Strip(current)];
          current := sentence;
        } else {
          parts, current := CutLongSentence(parts, sentence, maxLength);
          assert Step(was, sentence, maxLength) == Chunking(parts, current);
        }
      } else {
        current := current + (if current != [] then " " + sentence else sentence);
        assert Step(was, sentence, maxLength) == Chunking(parts, current);
      }
    }
    assert sentences[|sentences|..] == [];
    if current != [] {
      parts := parts + [Strip(current)];
    }
    if parts == [] {
      parts := [text];
    }
  }

  // ---------------------------------------------------------------------
  // Content: only whitespace is lost
  // ---------------------------------------------------------------------

  ghost function Seen(st: Chunking): string {
    Visible(Concat(st.parts)) + Visible(st.current)
  }

  /** Cutting a string in two and stripping both halves loses only whitespace. */
  lemma {:induction false} CutKeepsVisible(s: string, k: nat)
    requires k <= |s|
    ensures Visible(Strip(s[..k])) + Visible(Strip(s[k..])) == Visible(s)
  {
    VisibleStrip(s[..k]);
    VisibleStrip(s[k..]);
    assert s == s[..k] + s[k..];
    VisibleAppend(s[..k], s[k..]);
  }

  lemma {:induction false} ConsKeepsVisible(first: string, more: seq<string>)
    ensures Visible(Concat([first] + more)) == Visible(first) + Visible(Concat(more))
  {
    ConcatAppend([first], more);
    assert Concat([first]) == first;
    VisibleAppend(first, Concat(more));
  }

  lemma {:induction false} HardSplitKeepsVisible(s: string, max: nat)
    requires max >= 1
    ensures Visible(Concat(HardSplit(s, max).pieces)) + Visible(HardSplit(s, max).rest) == Visible(s)
    decreases |s|
  {
    if |s| > max {
      var k := CutIndex(s, max);
      assert k == 0 ==> s[k..] == s;
      var first, next := Strip(s[..k]), Strip(s[k..]);
      var sub := HardSplit(next, max);
      assert HardSplit(s, max) == Split([first] + sub.pieces, sub.rest);
      HardSplitKeepsVisible(next, max);
      ConsKeepsVisible(first, sub.pieces);
      CutKeepsVisible(s, k);
      var a, b, c := Visible(first), Visible(Concat(sub.pieces)), Visible(sub.rest);
      AppendAssoc(a, b, c);
    } else {
      assert HardSplit(s, max) == Split([], s);
      assert Visible(Concat([])) == [];
    }
  }

  lemma {:induction false} EmitKeepsVisible(parts: seq<string>, current: string)
    ensures Visible(Concat(parts + [Strip(current)])) == Visible(Concat(parts)) + Visible(current)
  {
    ConcatAppend(parts, [Strip(current)]);
    assert Concat([Strip(current)]) == Strip(current);
    VisibleAppend(Concat(parts), Strip(current));
    VisibleStrip(current);
  }

  lemma {:induction false} JoinKeepsVisible(current: string, x: string)
    ensures Visible(current + (" " + x)) == Visible(current) + Visible(x)
  {
    VisibleAppend(current, " " + x);
    VisibleAppend(" ", x);
    assert Visible(" ") == [];
    assert [] + Visible(x) == Visible(x);
  }

  lemma {:induction false} StepKeepsVisible(st: Chunking, x: string, max: nat)
    requires max >= 1
    ensures Seen(Step(st, x, max)) == Seen(st) + Visible(x)
  {
    var p, c := Visible(Concat(st.parts)), Visible(st.current);
    if |st.current| + |x| + 1 > max {
      if st.current != [] {
        EmitKeepsVisible(st.parts, st.current);
        assert Seen(Step(st, x, max)) == (p + c) + Visible(x);
      } else {
        var split := HardSplit(x, max);
        assert Step(st, x, max) == Chunking(st.parts + split.pieces, split.rest);
        var q, r := Visible(Concat(split.pieces)), Visible(split.rest);
        ConcatAppend(st.parts, split.pieces);
        VisibleAppend(Concat(st.parts), Concat(split.pieces));
        HardSplitKeepsVisible(x, max);
        assert c == [] && p + c == p;
        AppendAssoc(p, q, r);
        assert Seen(Step(st, x, max)) == (p + q) + r;
      }
    } else if st.current != [] {
      assert Step(st, x, max) == Chunking(st.parts, st.current + (" " + x));
      JoinKeepsVisible(st.current, x);
      AppendAssoc(p, c, Visible(x));
    } else {
      assert Step(st, x, max) == Chunking(st.parts, x);
      assert c == [] && p + c == p;
    }
  }

  lemma {:induction false} FoldKeepsVisible(st: Chunking, xs: seq<string>, max: nat)
    requires max >= 1
    ensures Seen(Fold(st, xs, max)) == Seen(st) + Visible(Concat(xs))
    decreases xs
  {
    if xs != [] {
      StepKeepsVisible(st, xs[0], max);
      FoldKeepsVisible(Step(st, xs[0], max), xs[1..], max);
      VisibleAppend(xs[0], Concat(xs[1..]));
    }
  }

  /** Deleting all whitespace from the joined messages gives the input with
      all whitespace deleted: nothing but whitespace is dropped, and the
      messages follow the order of the text. */
  lemma {:induction false} ChunkKeepsVisible(text: string, max: nat)
    requires max >= 1
    ensures Visible(Concat(Chunk(text, max))) == Visible(text)
  {
    var ss := SentencesOf(text);
    var st := Fold(Chunking([], ""), ss, max);
    SentencesOfKeepVisible(text);
    assert Seen(st) == Visible(text) by {
      FoldKeepsVisible(Chunking([], ""), ss, max);
      assert Seen(Chunking([], "")) == [];
      assert [] + Visible(Concat(ss)) == Visible(Concat(ss));
    }
    var parts := if st.current != [] then st.parts + [Strip(st.current)] else st.parts;
    assert Visible(Concat(parts)) == Seen(st) by {
      if st.current != [] {
        EmitKeepsVisible(st.parts, st.current);
      } else {
        assert Visible(st.current) == [];
        assert Seen(st) == Visible(Concat(st.parts)) + [];
      }
    }
    assert Concat([text]) == text;
  }

  // ---------------------------------------------------------------------
  // Shape: non-empty messages, and the length bound as far as it holds
  // ---------------------------------------------------------------------

  /** A message is within the limit, or is one whole sentence of the text. */
  predicate Fits(p: string, max: nat, ss: seq<string>) {
    |p| <= max || p in ss
  }

  ghost predicate Reachable(st: Chunking, max: nat, ss: seq<string>) {
    (forall p :: p in st.parts ==> p != [] && Fits(p, max, ss))
    && (st.current == [] || !IsSpace(st.current[0]))
    && Fits(st.current, max, ss)
  }

  lemma {:induction false} StepReachable(st: Chunking, x: string, max: nat, ss: seq<string>)
    requires max >= 1 && Reachable(st, max, ss)
    requires forall y :: y in ss ==> Stripped(y)
    requires x in ss && x != []
    ensures Reachable(Step(st, x, max), max, ss)
    ensures Step(st, x, max).parts != [] || Step(st, x, max).current != []
  {
    if |st.current| + |x| + 1 > max && st.current != [] {
      var p := Strip(st.current);
      assert p != [];
      if |st.current| > max {
        assert Stripped(st.current);
      }
    }
  }

  lemma {:induction false} FoldReachable(st: Chunking, xs: seq<string>, max: nat, ss: seq<string>)
    requires max >= 1 && Reachable(st, max, ss)
    requires forall y :: y in ss ==> Stripped(y)
    requires forall x :: x in xs ==> x in ss && x != []
    ensures Reachable(Fold(st, xs, max), max, ss)
    ensures xs != [] || st.parts != [] || st.current != [] ==>
              Fold(st, xs, max).parts != [] || Fold(st, xs, max).current != []
    decreases xs
  {
    if xs != [] {
      StepReachable(st, xs[0], max, ss);
      FoldReachable(Step(st, xs[0], max), xs[1..], max, ss);
    }
  }

  /** For a text that is not blank, every message is non-empty, and every
      message longer than `max` is a whole sentence of the text: such a
      sentence is emitted unsplit when it arrives while a message is being
      filled, so no global length bound holds. */
  lemma {:induction false} ChunkShape(text: string, max: nat)
    requires max >= 1 && Strip(text) != []
    ensures forall p :: p in Chunk(text, max) ==> p != []
    ensures forall p :: p in Chunk(text, max) ==> |p| <= max || p in Sentences(Strip(text))
  {
    var ss := Sentences(Strip(text));
    SentencesOfStripped(Strip(text));
    FoldReachable(Chunking([], ""), ss, max, ss);
    var st := Fold(Chunking([], ""), ss, max);
    if st.current != [] {
      var p := Strip(st.current);
      assert p != [];
      if |st.current| > max {
        assert Stripped(st.current);
      }
    }
  }

  // ---------------------------------------------------------------------
  // Particular inputs
  // ---------------------------------------------------------------------

  /** An empty or whitespace-only text comes back unchanged as the only
      message, so `""` gives `[""]`. */
  lemma {:induction false} ChunkBlank(text: string, max: nat)
    requires max >= 1 && Strip(text) == []
    ensures Chunk(text, max) == [text]
  {
    assert Sentences([]) == [""] by {
      assert FirstBoundary([], 1) == 0;
    }
    assert SentencesOf(text) == [""];
    assert Step(Chunking([], ""), "", max) == Chunking([], "");
    assert Fold(Chunking([], ""), [""], max) == Chunking([], "") by {
      assert [""][1..] == [];
    }
  }

  /** A stripped text within the limit and without a sentence boundary is
      sent as it is. */
  lemma {:induction false} ChunkShortText(text: string, max: nat)
    requires max >= 1 && Stripped(text) && |text| <= max && !HasBoundary(text)
    ensures Chunk(text, max) == [text]
  {
    SentencesOfUnbroken(text);
    if text == [] {
      ChunkBlank(text, max);
    } else {
      assert SentencesOf(text) == [text];
      assert Fold(Chunking([], ""), [text], max) == Chunking([], text);
    }
  }

  /** `n` copies of the letter x. */
  function Xs(n: nat): (r: string)
    ensures |r| == n && forall i :: 0 <= i < n ==> r[i] == 'x'
  {
    seq(n, _ => 'x')
  }

  lemma {:induction false} XsIsOneSentence(n: nat)
    requires n > 0
    ensures Strip(Xs(n)) == Xs(n) && Sentences(Xs(n)) == [Xs(n)]
  {
    var s := Xs(n);
    assert Stripped(s) by {
      assert s[0] == 'x' && s[n - 1] == 'x';
    }
    assert !HasBoundary(s) by {
      forall j | 0 < j < |s| ensures !BoundaryAt(s, j) {
        assert s[j - 1] == 'x';
      }
    }
    SentencesOfUnbroken(s);
  }

  lemma {:induction false} HardSplitXs(n: nat, max: nat)
    requires 1 <= max < n
    ensures HardSplit(Xs(n), max).pieces == [Xs(max)] + HardSplit(Xs(n - max), max).pieces
    ensures HardSplit(Xs(n), max).rest == HardSplit(Xs(n - max), max).rest
  {
    var s := Xs(n);
    assert forall j :: 0 <= j < |s| ==> s[j] != ' ';
    assert RFindSpace(s, max - 1) == -1;
    assert CutIndex(s, max) == max;
    assert s[..max] == Xs(max);
    assert s[max..] == Xs(n - max);
    assert Stripped(Xs(max)) by {
      assert Xs(max)[0] == 'x' && Xs(max)[max - 1] == 'x';
    }
    assert Stripped(Xs(n - max)) by {
      assert Xs(n - max)[0] == 'x' && Xs(n - max)[n - max - 1] == 'x';
    }
    HardSplitAt(s, max);
  }

  lemma {:induction false} HardSplitNineThousand()
    ensures HardSplit(Xs(9000), 4000) == Split([Xs(4000), Xs(4000)], Xs(1000))
  {
    HardSplitXs(9000, 4000);
    HardSplitXs(5000, 4000);
    assert HardSplit(Xs(1000), 4000) == Split([], Xs(1000));
    assert [Xs(4000)] + ([Xs(4000)] + []) == [Xs(4000), Xs(4000)];
  }

  /** `Chunk` read off the state the fold ends in. */
  lemma {:induction false} ChunkFromFold(text: string, max: nat, st: Chunking)
    requires max >= 1 && Fold(Chunking([], ""), SentencesOf(text), max) == st
    ensures st.current != [] ==> Chunk(text, max) == st.parts + [Strip(st.current)]
    ensures st.current == [] && st.parts != [] ==> Chunk(text, max) == st.parts
  {
  }

  lemma {:induction false} FoldOne(st: Chunking, s: string, max: nat)
    requires max >= 1
    ensures Fold(st, [s], max) == Step(st, s, max)
  {
    FoldAt(st, [s], 0, max);
    assert [s][0..] == [s] && [s][1..] == [];
  }

  lemma {:induction false} StepNineThousand()
    ensures Step(Chunking([], ""), Xs(9000), 4000) == Chunking([Xs(4000), Xs(4000)], Xs(1000))
  {
    HardSplitNineThousand();
    StepSplits(Xs(9000), 4000);
  }

  /** From the empty state, a sentence that does not fit is hard-split. */
  lemma {:induction false} StepSplits(sentence: string, max: nat)
    requires max >= 1 && |sentence| + 1 > max
    ensures Step(Chunking([], ""), sentence, max)
         == Chunking(HardSplit(sentence, max).pieces, HardSplit(sentence, max).rest)
  {
    assert [] + HardSplit(sentence, max).pieces == HardSplit(sentence, max).pieces;
  }

  /** 9000 letters without punctuation, with the 4000-character limit the bot
      uses, become three messages of 4000, 4000 and 1000 characters. */
  lemma {:induction false} ChunkNineThousand()
    ensures Chunk(Xs(9000), 4000) == [Xs(4000), Xs(4000), Xs(1000)]
  {
    XsIsOneSentence(9000);
    XsIsOneSentence(1000);
    assert SentencesOf(Xs(9000)) == [Xs(9000)];
    FoldOne(Chunking([], ""), Xs(9000), 4000);
    StepNineThousand();
    ChunkFromFold(Xs(9000), 4000, Chunking([Xs(4000), Xs(4000)], Xs(1000)));
  }

  lemma {:induction false} SentencesOfExample()
    ensures SentencesOf("ab. cdefg") == ["ab.", "cdefg"]
  {
    var s := "ab. cdefg";
    assert Strip(s) == s by {
      assert Stripped(s);
    }
    assert FirstBoundary(s, 1) == 3 by {
      assert !BoundaryAt(s, 1) && !BoundaryAt(s, 2) && BoundaryAt(s, 3);
    }
    assert SkipSpaces(s, 3) == 4;
    assert s[..3] == "ab." && s[4..] == "cdefg";
    var t := "cdefg";
    assert !HasBoundary(t) by {
      forall j | 0 < j < |t| ensures !BoundaryAt(t, j) {
        assert !IsTerminator(t[j - 1]);
      }
    }
    SentencesOfUnbroken(t);
  }

  lemma {:induction false} StepsOfExample()
    ensures Step(Chunking([], ""), "ab.", 3) == Chunking([], "ab.")
    ensures Step(Chunking([], "ab."), "cdefg", 3) == Chunking(["ab."], "cdefg")
  {
    assert HardSplit("ab.", 3) == Split([], "ab.");
    assert Strip("ab.") == "ab." by {
      assert Stripped("ab.");
    }
  }

  /** A sentence longer than the limit that arrives while a message is being
      filled is emitted whole: with a limit of 3, "ab. cdefg" gives "ab." and
      the 5-character "cdefg". */
  lemma {:induction false} ChunkKeepsLongSentenceWhole()
    ensures Chunk("ab. cdefg", 3) == ["ab.", "cdefg"]
  {
    var s := "ab. cdefg";
    SentencesOfExample();
    var first := Chunking([], "ab.");
    var second := Chunking(["ab."], "cdefg");
    StepsOfExample();
    assert Fold(Chunking([], ""), ["ab.", "cdefg"], 3) == second by {
      FoldAt(Chunking([], ""), ["ab.", "cdefg"], 0, 3);
      assert ["ab.", "cdefg"][1..] == ["cdefg"];
      FoldOne(first, "cdefg", 3);
    }
    assert Strip("cdefg") == "cdefg" by {
      assert Stripped("cdefg");
    }
    ChunkFromFold(s, 3, second);
  }

  // ---------------------------------------------------------------------
  // Where the chunker changes whitespace
  // ---------------------------------------------------------------------

  /** `" ".join(pieces)`: the sentences put back together with one space
      between each two. */
  function JoinSpace(pieces: seq<string>): string
    decreases |pieces|
  {
    if pieces == [] then []
    else if |pieces| == 1 then pieces[0]
    else JoinSpace(pieces[..|pieces| - 1]) + " " + pieces[|pieces| - 1]
  }

  /** Weaving one more piece after one more gap appends both. */
  lemma {:induction false} WeaveSnoc(pieces: seq<string>, gaps: seq<string>, gap: string, piece: string)
    requires |pieces| == |gaps| + 1
    ensures Weave(pieces + [piece], gaps + [gap]) == Weave(pieces, gaps) + gap + piece
    decreases gaps
  {
    if gaps != [] {
      WeaveSnoc(pieces[1..], gaps[1..], gap, piece);
      assert (pieces + [piece])[1..] == pieces[1..] + [piece];
      assert (gaps + [gap])[1..] == gaps[1..] + [gap];
    }
  }

  /** Extending the last piece extends the woven string by the same text. */
  lemma {:induction false} WeaveExtendLast(pieces: seq<string>, gaps: seq<string>, more: string)
    requires |pieces| == |gaps| + 1
    ensures Weave(pieces[..|gaps|] + [pieces[|gaps|] + more], gaps) == Weave(pieces, gaps) + more
    decreases gaps
  {
    if gaps != [] {
      WeaveExtendLast(pieces[1..], gaps[1..], more);
      assert (pieces[..|gaps|] + [pieces[|gaps|] + more])[1..]
          == pieces[1..][..|gaps| - 1] + [pieces[1..][|gaps| - 1] + more];
    }
  }

  /** Stripping a text that does not start with whitespace removes only a
      blank tail. */
  lemma {:induction false} StripHead(a: string)
    requires a == [] || !IsSpace(a[0])
    ensures |Strip(a)| <= |a| && Strip(a) == a[..|Strip(a)|] && Blank(a[|Strip(a)|..])
  {
    assert TrimStart(a) == a;
    TrimEndIsPrefix(a);
  }

  /** Stripping a text that ends with a visible character removes only a
      blank head, and leaves something. */
  lemma {:induction false} StripTail(b: string)
    requires b != [] && !IsSpace(b[|b| - 1])
    ensures Strip(b) != [] && |Strip(b)| <= |b|
    ensures Strip(b) == b[|b| - |Strip(b)|..] && Blank(b[..|b| - |Strip(b)|])
  {
    TrimStartIsSuffix(b);
    var t := TrimStart(b);
    assert t[|t| - 1] == b[|b| - 1];
    assert TrimEnd(t) == t;
  }

  /** Two blank strings make a blank string. */
  lemma BlankConcat(x: string, y: string)
    requires Blank(x) && Blank(y)
    ensures Blank(x + y)
  {
    assert forall i :: 0 <= i < |x + y| ==> (x + y)[i] == if i < |x| then x[i] else y[i - |x|];
  }

  /** Cutting a stripped text at `k` and stripping both halves removes only
      the whitespace around the cut. */
  lemma {:induction false} CutWeaves(s: string, k: nat) returns (gap: string)
    requires Stripped(s) && k < |s|
    ensures Blank(gap) && Strip(s[..k]) + gap + Strip(s[k..]) == s
    ensures Strip(s[k..]) != [] && Stripped(Strip(s[k..]))
  {
    var a, b := s[..k], s[k..];
    assert a != [] ==> a[0] == s[0];
    assert b[|b| - 1] == s[|s| - 1];
    assert s == a + b;
    StripHead(a);
    StripTail(b);
    gap := CutGap(s, a, b, Strip(a), Strip(b));
  }

  /** A text cut in two, each half trimmed of blank ends on the cut's side
      only: the trimmed whitespace makes one blank gap. */
  lemma CutGap(s: string, a: string, b: string, ra: string, rb: string) returns (gap: string)
    requires s == a + b
    requires |ra| <= |a| && ra == a[..|ra|] && Blank(a[|ra|..])
    requires |rb| <= |b| && rb == b[|b| - |rb|..] && Blank(b[..|b| - |rb|])
    ensures Blank(gap) && ra + gap + rb == s
  {
    var ga, gb := a[|ra|..], b[..|b| - |rb|];
    BlankConcat(ga, gb);
    gap := ga + gb;
    assert a == ra + ga && b == gb + rb;
    assert ra + (ga + gb) + rb == (ra + ga) + (gb + rb);
  }

  /** Weaving a first piece and gap in front. */
  lemma WeaveCons(piece: string, gap: string, pieces: seq<string>, gaps: seq<string>)
    requires |pieces| == |gaps| + 1
    ensures Weave([piece] + pieces, [gap] + gaps) == piece + gap + Weave(pieces, gaps)
  {
    assert ([piece] + pieces)[1..] == pieces && ([gap] + gaps)[1..] == gaps;
  }

  /** The pieces a stripped sentence is cut into, followed by what is left,
      give back the sentence once the whitespace removed at each cut is put
      back. */
  lemma {:induction false} HardSplitWeaves(s: string, max: nat) returns (gaps: seq<string>)
    requires max >= 1 && s != [] && Stripped(s)
    ensures var h := HardSplit(s, max);
      |gaps| == |h.pieces| && h.rest != [] && Stripped(h.rest) && AllStripped(h.pieces)
      && (forall k :: 0 <= k < |gaps| ==> Blank(gaps[k]))
      && Weave(h.pieces + [h.rest], gaps) == s
    decreases |s|
  {
    if |s| <= max {
      gaps := [];
    } else {
      var k := CutIndex(s, max);
      var head, rest := Strip(s[..k]), Strip(s[k..]);
      var gap := CutWeaves(s, k);
      var tail := HardSplit(rest, max);
      var more := HardSplitWeaves(rest, max);
      HardSplitAt(s, max);
      AllStrippedConcat([head], tail.pieces);
      gaps := [gap] + more;
      WeaveCut(head, gap, tail.pieces, tail.rest, more, rest);
    }
  }

  /** A cut piece and its gap in front of a woven remainder. */
  lemma {:induction false} WeaveCut(head: string, gap: string, pieces: seq<string>, rest: string,
                                    gaps: seq<string>, woven: string)
    requires |gaps| == |pieces| && Blank(gap) && (forall k :: 0 <= k < |gaps| ==> Blank(gaps[k]))
    requires Weave(pieces + [rest], gaps) == woven
    ensures forall k :: 0 <= k < |[gap] + gaps| ==> Blank(([gap] + gaps)[k])
    ensures Weave([head] + pieces + [rest], [gap] + gaps) == head + gap + woven
  {
    WeaveCons(head, gap, pieces + [rest], gaps);
    assert [head] + pieces + [rest] == [head] + (pieces + [rest]);
    forall k | 0 <= k < |[gap] + gaps|
      ensures Blank(([gap] + gaps)[k])
    {
      if k > 0 {
        assert ([gap] + gaps)[k] == gaps[k - 1];
      }
    }
  }

  /** No message begins or ends with whitespace. */
  predicate AllStripped(parts: seq<string>)
  {
    forall k :: 0 <= k < |parts| ==> Stripped(parts[k])
  }

  /** Putting two lists of stripped messages together. */
  lemma AllStrippedConcat(a: seq<string>, b: seq<string>)
    requires AllStripped(a) && AllStripped(b)
    ensures AllStripped(a + b)
  {
    assert forall k :: 0 <= k < |a + b| ==> (a + b)[k] == if k < |a| then a[k] else b[k - |a|];
  }

  /** The loop state is the sentences read so far, joined with single spaces,
      cut into the emitted messages and the one being filled, with only
      whitespace between them; the message being filled is stripped and not
      empty. */
  predicate WovenState(st: Chunking, gaps: seq<string>, done: seq<string>)
  {
    st.current != [] && Stripped(st.current) && AllStripped(st.parts) && |gaps| == |st.parts|
    && (forall k :: 0 <= k < |gaps| ==> Blank(gaps[k]))
    && Weave(st.parts + [st.current], gaps) == JoinSpace(done)
  }

  /** The first iteration, from the empty state. */
  lemma {:induction false} FirstStepWeaves(sentence: string, max: nat) returns (gaps: seq<string>)
    requires max >= 1 && sentence != [] && Stripped(sentence)
    ensures WovenState(Step(Chunking([], ""), sentence, max), gaps, [sentence])
  {
    if |sentence| + 1 > max {
      var h := HardSplit(sentence, max);
      gaps := HardSplitWeaves(sentence, max);
      assert Step(Chunking([], ""), sentence, max) == Chunking([] + h.pieces, h.rest);
      assert [] + h.pieces == h.pieces;
    } else {
      gaps := [];
    }
  }

  /** Every later iteration keeps the state woven. */
  lemma {:induction false} StepWeaves(st: Chunking, gaps: seq<string>, done: seq<string>, sentence: string, max: nat)
    returns (gaps': seq<string>)
    requires max >= 1 && sentence != [] && Stripped(sentence)
    requires done != [] && WovenState(st, gaps, done)
    ensures WovenState(Step(st, sentence, max), gaps', done + [sentence])
  {
    var all := done + [sentence];
    assert all[..|all| - 1] == done;
    assert JoinSpace(all) == JoinSpace(done) + " " + sentence;
    var pieces := st.parts + [st.current];
    if |st.current| + |sentence| + 1 > max {
      assert Step(st, sentence, max) == Chunking(st.parts + [st.current], sentence);
      gaps' := gaps + [" "];
      AllStrippedConcat(st.parts, [st.current]);
      WeaveSnoc(pieces, gaps, " ", sentence);
    } else {
      var joined := st.current + (" " + sentence);
      assert Step(st, sentence, max) == Chunking(st.parts, joined);
      gaps' := gaps;
      WeaveExtendLast(pieces, gaps, " " + sentence);
      assert pieces[..|gaps|] + [pieces[|gaps|] + (" " + sentence)] == st.parts + [joined];
      assert joined[|joined| - 1] == sentence[|sentence| - 1];
    }
  }

  /** The rest of the loop keeps the state woven. */
  lemma {:induction false} FoldWeaves(st: Chunking, gaps: seq<string>, done: seq<string>, sentences: seq<string>, max: nat)
    returns (gaps': seq<string>)
    requires max >= 1 && done != [] && WovenState(st, gaps, done)
    requires forall k :: 0 <= k < |sentences| ==> sentences[k] != [] && Stripped(sentences[k])
    ensures WovenState(Fold(st, sentences, max), gaps', done + sentences)
    decreases sentences
  {
    if sentences == [] {
      gaps' := gaps;
      assert done + sentences == done;
    } else {
      var next := StepWeaves(st, gaps, done, sentences[0], max);
      gaps' := FoldWeaves(Step(st, sentences[0], max), next, done + [sentences[0]], sentences[1..], max);
      assert done + [sentences[0]] + sentences[1..] == done + sentences;
    }
  }

  /** For a non-blank text the messages, with only whitespace put back
      between them, are the text's sentences joined with single spaces: the
      chunker changes whitespace only at sentence boundaries, where a run
      becomes one space or a message break, and at the cuts of an over-long
      sentence. */
  lemma {:induction false} ChunkWeaves(text: string, max: nat) returns (gaps: seq<string>)
    requires max >= 1 && Strip(text) != []
    ensures |gaps| + 1 == |Chunk(text, max)|
    ensures forall k :: 0 <= k < |gaps| ==> Blank(gaps[k])
    ensures Weave(Chunk(text, max), gaps) == JoinSpace(Sentences(Strip(text)))
    ensures AllStripped(Chunk(text, max))
  {
    var ss := Sentences(Strip(text));
    SentencesOfStripped(Strip(text));
    assert forall k :: 0 <= k < |ss| ==> ss[k] in ss;
    assert SentencesOf(text) == ss;
    var first := FirstStepWeaves(ss[0], max);
    var st1 := Step(Chunking([], ""), ss[0], max);
    gaps := FoldWeaves(st1, first, [ss[0]], ss[1..], max);
    assert [ss[0]] + ss[1..] == ss;
    var st := Fold(Chunking([], ""), ss, max);
    assert st == Fold(st1, ss[1..], max);
    assert Chunk(text, max) == st.parts + [st.current];
    AllStrippedConcat(st.parts, [st.current]);
  }

  // ---------------------------------------------------------------------
  // When sentences are joined
  // ---------------------------------------------------------------------

  /** With a message being filled, an iteration emits a message exactly when
      the message, a space and the sentence are longer than the limit, and
      otherwise joins the sentence with one space. */
  lemma {:induction false} StepBreaksOnlyWhenFull(st: Chunking, sentence: string, max: nat)
    requires max >= 1 && st.current != []
    ensures |Step(st, sentence, max).parts| > |st.parts| <==> |st.current| + 1 + |sentence| > max
    ensures |st.current| + 1 + |sentence| <= max ==>
      Step(st, sentence, max) == Chunking(st.parts, st.current + " " + sentence)
  {
    assert st.current + (" " + sentence) == st.current + " " + sentence;
  }

  /** Appending sentences never shortens their join. */
  lemma {:induction false} JoinSpaceGrows(a: seq<string>, b: seq<string>)
    ensures |JoinSpace(a)| <= |JoinSpace(a + b)|
    decreases |b|
  {
    if b != [] {
      var c := a + b[..|b| - 1];
      JoinSpaceGrows(a, b[..|b| - 1]);
      assert a + b == c + [b[|b| - 1]];
      assert (a + b)[..|a + b| - 1] == c;
    } else {
      assert a + b == a;
    }
  }

  /** Once the sentences read so far are joined in the message being
      filled, and the whole join fits, the rest of the loop keeps joining. */
  lemma {:induction false} FoldJoins(done: seq<string>, sentences: seq<string>, max: nat)
    requires max >= 1 && done != [] && JoinSpace(done) != []
    requires |JoinSpace(done + sentences)| <= max
    ensures Fold(Chunking([], JoinSpace(done)), sentences, max) == Chunking([], JoinSpace(done + sentences))
    decreases sentences
  {
    if sentences == [] {
      assert done + sentences == done;
    } else {
      var next := done + [sentences[0]];
      assert next[..|next| - 1] == done;
      assert JoinSpace(next) == JoinSpace(done) + " " + sentences[0];
      assert next + sentences[1..] == done + sentences;
      JoinSpaceGrows(next, sentences[1..]);
      StepBreaksOnlyWhenFull(Chunking([], JoinSpace(done)), sentences[0], max);
      FoldJoins(next, sentences[1..], max);
    }
  }

  /** A non-blank text whose sentences, joined with single spaces, fit within
      the limit is sent as one message: that join. */
  lemma {:induction false} ChunkFitsWhole(text: string, max: nat)
    requires max >= 1 && Strip(text) != []
    requires |JoinSpace(Sentences(Strip(text)))| <= max
    ensures Chunk(text, max) == [JoinSpace(Sentences(Strip(text)))]
  {
    var ss := Sentences(Strip(text));
    SentencesOfStripped(Strip(text));
    assert ss[0] in ss;
    assert SentencesOf(text) == ss;
    assert [ss[0]] + ss[1..] == ss;
    JoinSpaceGrows([ss[0]], ss[1..]);
    assert HardSplit(ss[0], max) == Split([], ss[0]);
    assert Step(Chunking([], ""), ss[0], max) == Chunking([], JoinSpace([ss[0]]));
    FoldJoins([ss[0]], ss[1..], max);
    var gaps := ChunkWeaves(text, max);
  }
}
