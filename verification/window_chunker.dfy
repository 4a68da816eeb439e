/** `sliding_window_preserve_lines`: the line-window chunker, in its two copies.

    chunking.py (lines 100-136) closes a window whenever the next line would
    push the word count over `max_tokens`, even if the window is still empty;
    app.py (lines 81-99) adds the test `and current_chunk`, so it never emits
    an empty window. Both split the text with `splitlines(keepends=True)`, so
    every window is a concatenation of whole lines, optionally preceded by one
    synthetic overlap line. */
module WindowChunker {
  import opened Text
  import opened Packing

  /** The line a window starts with after the window `prev` was closed: the
      last `overlap` words of `prev` joined by single spaces, then `"\n"`; or
      nothing when overlap is off or `prev` has no words. Its word count is
      what the source resets `word_count` to. */
  function OverlapLine(prev: string, overlap: int): (line: string)
    ensures line == "" <==> overlap <= 0 || WordCount(prev) == 0
    ensures WordCount(line) == if overlap <= 0 then 0 else if overlap < WordCount(prev) then overlap else WordCount(prev)
    ensures overlap > 0 && line != "" ==> Words(line) == LastN(Words(prev), overlap) && line[|line| - 1] == '\n'
    ensures line != "" ==> line == JoinSep(" ", Words(line)) + "\n"
  {
    var seed := Seed(Lines(false), prev, overlap);
    SeedWordCount(Lines(false), prev, overlap);
    OverlapWords(prev, overlap);
    if seed.0 == [] then ""
    else
      assert WordTotal(seed.0) == WordTotal([] + [seed.0[0]]) by {
        assert seed.0 == [] + [seed.0[0]];
      }
      WordTotalAppend([], seed.0[0]);
      seed.0[0]
  }

  /** The words of the overlap line are the carried-over words themselves. */
  lemma OverlapWords(prev: string, overlap: int)
    ensures overlap > 0 ==>
      var overlapWords := JoinSep(" ", LastN(Words(prev), overlap));
      overlapWords != "" ==> Words(overlapWords + "\n") == LastN(Words(prev), overlap)
  {
    if overlap > 0 {
      var overlapWords := JoinSep(" ", LastN(Words(prev), overlap));
      WordsOfJoin(LastN(Words(prev), overlap));
      if overlapWords != "" {
        WordsAppendSpace(overlapWords, '\n');
      }
    }
  }

  /** `sliding_window_preserve_lines` of chunking.py: no non-empty guard. */
  function SlidingWindow(text: string, maxTokens: int, overlap: int): (chunks: seq<string>)
    ensures chunks == [] <==> text == ""
    ensures forall k :: 0 < k < |chunks| ==> chunks[k] != ""
    ensures text != "" ==> (chunks[0] == "" <==> WordCount(SplitLines(text)[0]) > maxTokens)
  {
    WindowsShape(false, text, maxTokens, overlap);
    Chunks(Lines(false), maxTokens, SeederOf(Lines(false), overlap), SplitLines(text))
  }

  /** `sliding_window_preserve_lines` of app.py: a window is closed only when
      it is non-empty, so no window is ever the empty string. */
  function GuardedSlidingWindow(text: string, maxTokens: int, overlap: int): (chunks: seq<string>)
    ensures chunks == [] <==> text == ""
    ensures forall k :: 0 <= k < |chunks| ==> chunks[k] != ""
  {
    WindowsShape(true, text, maxTokens, overlap);
    Chunks(Lines(true), maxTokens, SeederOf(Lines(true), overlap), SplitLines(text))
  }

  /** chunking.py's copy on the one-word text `"a"` with `max_tokens = 0`:
      the word does not fit into the empty first window, which is emitted as
      the chunk `""`; app.py's copy emits no empty chunk. */
  lemma EmptyFirstWindow()
    ensures |SlidingWindow("a", 0, 0)| > 0 && SlidingWindow("a", 0, 0)[0] == ""
    ensures |GuardedSlidingWindow("a", 0, 0)| > 0 && GuardedSlidingWindow("a", 0, 0)[0] != ""
  {
    var text := "a";
    assert BreakIndex(text[1..]) == 0;
    assert FirstLineLen(text) == 1;
    assert SplitLines(text[1..]) == [];
    assert SplitLines(text)[0] == text;
    assert WordLen(text) == 1;
    assert Words(text[1..]) == [];
    assert Words(text) == [text];
  }

  lemma LinesOfText(text: string)
    ensures SplitLines(text) == [] <==> text == ""
  {
    var lines := SplitLines(text);
    SplitLinesSpec(text);
    if |lines| > 0 {
      ConcatLength(lines, 0);
    }
  }

  /** A window whose body holds at least one line is not the empty string. */
  lemma WindowNonEmpty(g: Group, lines: seq<string>)
    requires forall i :: 0 <= i < |lines| ==> |lines[i]| > 0
    requires |g.body| > 0 && g.body[0] in lines
    ensures Concat(g.Items()) != ""
  {
    ConcatLength(g.Items(), |g.seed|);
  }

  lemma FlattenHead(gs: seq<Group>, k: nat)
    requires k < |gs| && |gs[k].body| > 0
    ensures gs[k].body[0] in Flatten(Bodies(gs))
  {
    if k == 0 {
      assert Flatten(Bodies(gs)) == gs[0].body + Flatten(Bodies(gs)[1..]);
    } else {
      assert Bodies(gs)[1..] == Bodies(gs[1..]);
      FlattenHead(gs[1..], k - 1);
    }
  }

  /** Emptiness of the windows, for either copy. */
  lemma WindowsShape(guarded: bool, text: string, maxTokens: int, overlap: int)
    ensures var chunks := Chunks(Lines(guarded), maxTokens, SeederOf(Lines(guarded), overlap), SplitLines(text));
      && (chunks == [] <==> text == "")
      && (forall k :: 0 <= k < |chunks| && (k > 0 || guarded) ==> chunks[k] != "")
      && (!guarded && text != "" ==> (chunks[0] == "" <==> WordCount(SplitLines(text)[0]) > maxTokens))
  {
    var lines := SplitLines(text);
    var gs := Pack(Lines(guarded), maxTokens, SeederOf(Lines(guarded), overlap), lines);
    var chunks := Chunks(Lines(guarded), maxTokens, SeederOf(Lines(guarded), overlap), lines);
    LinesOfText(text);
    SplitLinesSpec(text);
    forall k | 0 <= k < |gs| && |gs[k].body| > 0
      ensures chunks[k] != ""
    {
      FlattenHead(gs, k);
      WindowNonEmpty(gs[k], lines);
    }
    if |gs| > 0 && gs[0].body == [] {
      assert gs[0].Items() == [];
    }
  }

  /** A window seeded from the window `prev` is the overlap line of `prev`
      followed by its own lines. */
  lemma SeededWindow(guarded: bool, overlap: int, prev: string, g: Group)
    requires g.seed == SeederOf(Lines(guarded), overlap)(prev).0
    ensures Concat(g.Items()) == OverlapLine(prev, overlap) + Concat(g.body)
  {
    ConcatAppend(g.seed, g.body);
    assert Seed(Lines(guarded), prev, overlap) == Seed(Lines(false), prev, overlap);
    if g.seed != [] {
      assert Concat(g.seed) == g.seed[0] + Concat([]);
    }
  }

  /** With overlap off a window has no overlap line. */
  lemma UnseededWindow(guarded: bool, overlap: int, prev: string, g: Group)
    requires overlap <= 0
    requires g.seed == SeederOf(Lines(guarded), overlap)(prev).0
    ensures Concat(g.Items()) == Concat(g.body)
  {
    SeedWordCount(Lines(guarded), prev, overlap);
    assert g.Items() == g.body;
  }

  /** Window `k` is its overlap line (none for the first) followed by its lines. */
  lemma WindowAt(guarded: bool, lines: seq<string>, maxTokens: int, overlap: int, k: nat)
    requires k < |Pack(Lines(guarded), maxTokens, SeederOf(Lines(guarded), overlap), lines)|
    ensures var gs := Pack(Lines(guarded), maxTokens, SeederOf(Lines(guarded), overlap), lines);
      var chunks := Chunks(Lines(guarded), maxTokens, SeederOf(Lines(guarded), overlap), lines);
      chunks[k] == (if k == 0 then "" else OverlapLine(chunks[k - 1], overlap)) + Concat(gs[k].body)
  {
    var mode, seeder := Lines(guarded), SeederOf(Lines(guarded), overlap);
    var gs := Pack(mode, maxTokens, seeder, lines);
    var chunks := Chunks(mode, maxTokens, seeder, lines);
    ChunkLayoutAt(mode, maxTokens, seeder, lines, k);
    if k == 0 {
      assert gs[0].seed + gs[0].body == gs[0].body;
    } else {
      SeededWindow(guarded, overlap, chunks[k - 1], gs[k]);
    }
  }

  /** Every window is its overlap line (none for the first) followed by a run
      of whole lines; the runs, in order, are exactly the lines. */
  lemma WindowLayout(guarded: bool, lines: seq<string>, maxTokens: int, overlap: int)
    ensures var gs := Pack(Lines(guarded), maxTokens, SeederOf(Lines(guarded), overlap), lines);
      var chunks := Chunks(Lines(guarded), maxTokens, SeederOf(Lines(guarded), overlap), lines);
      && |chunks| == |gs|
      && Flatten(Bodies(gs)) == lines
      && forall k :: 0 <= k < |gs| ==>
           chunks[k] == (if k == 0 then "" else OverlapLine(chunks[k - 1], overlap)) + Concat(gs[k].body)
  {
    var gs := Pack(Lines(guarded), maxTokens, SeederOf(Lines(guarded), overlap), lines);
    forall k | 0 <= k < |gs| {
      WindowAt(guarded, lines, maxTokens, overlap, k);
    }
  }

  /** With overlap off every seed is empty, so the windows are runs of whole lines. */
  lemma LinesReassemble(guarded: bool, lines: seq<string>, maxTokens: int, overlap: int)
    requires overlap <= 0
    ensures Concat(Chunks(Lines(guarded), maxTokens, SeederOf(Lines(guarded), overlap), lines)) == Concat(lines)
  {
    var mode, seeder := Lines(guarded), SeederOf(Lines(guarded), overlap);
    var gs := Pack(mode, maxTokens, seeder, lines);
    var chunks := Chunks(mode, maxTokens, seeder, lines);
    var bodies := Bodies(gs);
    assert |chunks| == |gs|;
    forall k | 0 <= k < |gs|
      ensures chunks[k] == Concat(bodies[k])
    {
      ChunkLayoutAt(mode, maxTokens, seeder, lines, k);
      if k > 0 {
        UnseededWindow(guarded, overlap, chunks[k - 1], gs[k]);
      } else {
        assert gs[k].seed + gs[k].body == gs[k].body;
      }
    }
    ConcatFlatten(bodies, chunks);
  }

  /** chunking.py, overlap 0: concatenating the windows gives the text back. */
  lemma SlidingWindowReassembles(text: string, maxTokens: int, overlap: int)
    requires overlap <= 0
    ensures Concat(SlidingWindow(text, maxTokens, overlap)) == text
  {
    SplitLinesSpec(text);
    LinesReassemble(false, SplitLines(text), maxTokens, overlap);
  }

  /** app.py, overlap 0: concatenating the windows gives the text back. */
  lemma GuardedSlidingWindowReassembles(text: string, maxTokens: int, overlap: int)
    requires overlap <= 0
    ensures Concat(GuardedSlidingWindow(text, maxTokens, overlap)) == text
  {
    SplitLinesSpec(text);
    LinesReassemble(true, SplitLines(text), maxTokens, overlap);
  }
}
