/** The greedy packer shared by the three chunkers of the pipeline.

    All three walk a list of atomic items (lines or sentences), keep a running
    word count, close the chunk under construction when the next item would
    push the count over `max_tokens`, and start the next chunk with an overlap
    seed taken from the end of the chunk just closed. They differ in three
    details, captured by `Mode`:
      - how the items of a chunk are rendered (`"".join` for lines, `" ".join`
        for sentences),
      - what the seed is (one synthetic line `words + "\n"`, or the bare words),
      - whether an empty chunk may be closed (the unguarded line chunker of
        chunking.py has no `and current_chunk` test).

    The source's `current_chunk` list is split here into `Group(seed, body)`:
    `seed` is what the chunk was started with after a close, `body` the items
    appended since. `seed + body` is exactly the source's list. */
module Packing {
  import opened Text

  datatype Mode =
    | Lines(guarded: bool)
    | Sentences

  datatype Group = Group(seed: seq<string>, body: seq<string>) {
    /** The source's `current_chunk` list. */
    function Items(): seq<string> {
      seed + body
    }
  }

  /** The loop state: chunks already closed, the chunk being filled, `word_count`. */
  datatype PackState = PackState(closed: seq<Group>, current: Group, count: int)

  const Start := PackState([], Group([], []), 0)

  /** True for the line chunker of chunking.py, which closes a chunk on overflow
      even when nothing has been collected yet. */
  predicate ClosesEmpty(mode: Mode) {
    mode.Lines? && !mode.guarded
  }

  /** The chunk text the source appends for a list of items. */
  function Render(mode: Mode, items: seq<string>): string {
    match mode
    case Lines(_) => Concat(items)
    case Sentences => JoinSep(" ", items)
  }

  /** The seed that starts the chunk after one whose text is `text`, together
      with the value the source resets `word_count` to. */
  function Seed(mode: Mode, text: string, overlap: int): (seq<string>, nat) {
    var tail := if overlap > 0 then LastN(Words(text), overlap) else [];
    match mode
    case Lines(_) =>
      var overlapWords := JoinSep(" ", tail);
      (if overlapWords != "" then [overlapWords + "\n"] else [], WordCount(overlapWords))
    case Sentences =>
      (tail, |tail|)
  }

  /** The reset value of `word_count` is the seed's own word count, and it is
      the number of trailing words carried over: `min(overlap, words of text)`,
      or 0 when overlap is off. The seed is empty exactly when nothing is
      carried over. */
  lemma SeedWordCount(mode: Mode, text: string, overlap: int)
    ensures var r := Seed(mode, text, overlap);
      && WordTotal(r.0) == r.1
      && r.1 == (if overlap <= 0 then 0 else if overlap < WordCount(text) then overlap else WordCount(text))
      && (r.0 == [] <==> overlap <= 0 || WordCount(text) == 0)
  {
    var tail := if overlap > 0 then LastN(Words(text), overlap) else [];
    match mode
    case Lines(_) =>
      var overlapWords := JoinSep(" ", tail);
      WordsOfJoin(tail);
      if overlapWords != "" {
        WordsAppendSpace(overlapWords, '\n');
        WordTotalAppend([], overlapWords + "\n");
        assert [] + [overlapWords + "\n"] == [overlapWords + "\n"];
      } else if |tail| > 0 {
        JoinNonEmpty(" ", tail);
      }
    case Sentences =>
      WordTotalOfWords(tail);
  }

  /** A seed rule: from the text of the chunk just closed, the items that
      start the next chunk and the value `word_count` restarts from. */
  type Seeder = string -> (seq<string>, nat)

  /** The one property of a seed rule the packer relies on, so that its
      proofs never need to look inside `Seed`. */
  ghost predicate CountsSeed(seeder: Seeder) {
    forall text :: WordTotal(seeder(text).0) == seeder(text).1
  }

  /** The seed rule of `mode` with the given overlap. */
  function SeederOf(mode: Mode, overlap: int): (seeder: Seeder)
    ensures forall text :: seeder(text) == Seed(mode, text, overlap)
    ensures CountsSeed(seeder)
  {
    var seeder: Seeder := text => Seed(mode, text, overlap);
    assert CountsSeed(seeder) by {
      forall text: string
        ensures WordTotal(seeder(text).0) == seeder(text).1
      {
        SeedWordCount(mode, text, overlap);
      }
    }
    seeder
  }

  function SeedAfter(mode: Mode, seeder: Seeder, g: Group): seq<string> {
    seeder(Render(mode, g.Items())).0
  }

  /** The test at the top of the loop body: the item does not fit, and there
      is something to close (a test the unguarded line chunker leaves out). */
  predicate Overflows(mode: Mode, maxTokens: int, st: PackState, item: string) {
    st.count + WordCount(item) > maxTokens && (ClosesEmpty(mode) || |st.current.Items()| > 0)
  }

  /** Close the current chunk; the next one starts with the seed and the item. */
  function Close(mode: Mode, seeder: Seeder, st: PackState, item: string): PackState {
    var seed := seeder(Render(mode, st.current.Items()));
    PackState(st.closed + [st.current], Group(seed.0, [item]), seed.1 + WordCount(item))
  }

  /** Add the item to the current chunk. */
  function Append(st: PackState, item: string): PackState {
    PackState(st.closed, Group(st.current.seed, st.current.body + [item]), st.count + WordCount(item))
  }

  /** One iteration of the source's `for` loop. */
  function Step(mode: Mode, maxTokens: int, seeder: Seeder, st: PackState, item: string): PackState {
    if Overflows(mode, maxTokens, st, item) then Close(mode, seeder, st, item) else Append(st, item)
  }

  function Bodies(gs: seq<Group>): seq<seq<string>> {
    seq(|gs|, k requires 0 <= k < |gs| => gs[k].body)
  }

  // ---------------------------------------------------------------------------
  // Properties of a finished list of chunks
  // ---------------------------------------------------------------------------

  /** Every item lands, whole and in order, in the body of exactly one chunk. */
  ghost predicate Covers(gs: seq<Group>, items: seq<string>) {
    Flatten(Bodies(gs)) == items
  }

  /** Chunk `k` starts with the seed taken from chunk `k - 1`. */
  ghost predicate SeededFrom(mode: Mode, seeder: Seeder, gs: seq<Group>, k: int)
    requires 0 < k < |gs|
  {
    gs[k].seed == SeedAfter(mode, seeder, gs[k - 1])
  }

  /** Chunk `k - 1` was closed because the first item of chunk `k` did not fit. */
  ghost predicate FullBefore(maxTokens: int, gs: seq<Group>, k: int)
    requires 0 < k < |gs|
  {
    |gs[k].body| > 0 && WordTotal(gs[k - 1].Items()) + WordCount(gs[k].body[0]) > maxTokens
  }

  /** The first chunk has no seed; every later one is seeded from its predecessor. */
  ghost predicate SeedsChained(mode: Mode, seeder: Seeder, gs: seq<Group>) {
    && (|gs| > 0 ==> gs[0].seed == [])
    && forall k :: 0 < k < |gs| ==> SeededFrom(mode, seeder, gs, k)
  }

  /** No chunk holds more than `maxTokens` words unless it holds a single item. */
  ghost predicate WithinBudget(maxTokens: int, gs: seq<Group>) {
    forall k :: 0 <= k < |gs| ==> WordTotal(gs[k].Items()) <= maxTokens || |gs[k].body| <= 1
  }

  /** A chunk is closed only because the first item of the next one did not fit. */
  ghost predicate ClosedWhenFull(maxTokens: int, gs: seq<Group>) {
    forall k :: 0 < k < |gs| ==> FullBefore(maxTokens, gs, k)
  }

  // ---------------------------------------------------------------------------
  // The loop invariant
  // ---------------------------------------------------------------------------

  ghost predicate ChainInv(mode: Mode, seeder: Seeder, st: PackState) {
    && (|st.closed| == 0 ==> st.current.seed == [])
    && (|st.closed| > 0 ==> st.closed[0].seed == [])
    && (forall k :: 0 < k < |st.closed| ==> SeededFrom(mode, seeder, st.closed, k))
    && (|st.closed| > 0 ==> st.current.seed == SeedAfter(mode, seeder, st.closed[|st.closed| - 1]))
  }

  ghost predicate BudgetInv(maxTokens: int, st: PackState) {
    && WithinBudget(maxTokens, st.closed)
    && (WordTotal(st.current.Items()) <= maxTokens || |st.current.body| <= 1)
    && ClosedWhenFull(maxTokens, st.closed)
    && (|st.closed| > 0 ==>
          |st.current.body| > 0
          && WordTotal(st.closed[|st.closed| - 1].Items()) + WordCount(st.current.body[0]) > maxTokens)
  }

  ghost predicate CoverInv(items: seq<string>, st: PackState) {
    && (|items| == 0 ==> st == Start)
    && (|items| > 0 ==> |st.current.body| > 0)
    && Flatten(Bodies(st.closed)) + st.current.body == items
  }

  ghost predicate BodiesInv(mode: Mode, maxTokens: int, items: seq<string>, st: PackState) {
    && (forall k :: 0 <= k < |st.closed| && (k > 0 || !ClosesEmpty(mode)) ==> |st.closed[k].body| > 0)
    && (|items| > 0 ==>
          ((|st.closed| > 0 && st.closed[0].body == []) <==> (ClosesEmpty(mode) && WordCount(items[0]) > maxTokens)))
  }

  ghost predicate PackInv(mode: Mode, maxTokens: int, seeder: Seeder, items: seq<string>, st: PackState) {
    && CoverInv(items, st)
    && st.count == WordTotal(st.current.Items())
    && ChainInv(mode, seeder, st)
    && BudgetInv(maxTokens, st)
    && BodiesInv(mode, maxTokens, items, st)
  }

  lemma FlattenBodiesSnoc(gs: seq<Group>, g: Group)
    ensures Flatten(Bodies(gs + [g])) == Flatten(Bodies(gs)) + g.body
  {
    assert Bodies(gs + [g]) == Bodies(gs) + [g.body];
    FlattenAppend(Bodies(gs), [g.body]);
    assert Flatten([g.body]) == g.body + Flatten([]);
  }

  /** Closing the current chunk extends the seed chain by one link. */
  lemma ChainSnoc(mode: Mode, seeder: Seeder, st: PackState, st': PackState)
    requires ChainInv(mode, seeder, st)
    requires st'.closed == st.closed + [st.current]
    requires st'.current.seed == SeedAfter(mode, seeder, st.current)
    ensures ChainInv(mode, seeder, st')
  {
    forall k | 0 < k < |st'.closed|
      ensures SeededFrom(mode, seeder, st'.closed, k)
    {
      assert st'.closed[k - 1] == st.closed[k - 1];
      if k < |st.closed| {
        assert st'.closed[k] == st.closed[k];
        assert SeededFrom(mode, seeder, st.closed, k);
      }
    }
  }

  lemma CloseBudget(maxTokens: int, st: PackState, st': PackState, item: string)
    requires BudgetInv(maxTokens, st)
    requires |st.closed| > 0 ==> |st.current.body| > 0
    requires WordTotal(st.current.Items()) + WordCount(item) > maxTokens
    requires st'.closed == st.closed + [st.current] && st'.current.body == [item]
    ensures BudgetInv(maxTokens, st')
  {
    var closed' := st'.closed;
    forall k | 0 <= k < |closed'|
      ensures WordTotal(closed'[k].Items()) <= maxTokens || |closed'[k].body| <= 1
    {
      if k < |st.closed| { assert closed'[k] == st.closed[k]; }
    }
    forall k | 0 < k < |closed'|
      ensures FullBefore(maxTokens, closed', k)
    {
      assert closed'[k - 1] == st.closed[k - 1];
      if k < |st.closed| {
        assert closed'[k] == st.closed[k];
        assert FullBefore(maxTokens, st.closed, k);
      }
    }
  }

  lemma CloseBodies(mode: Mode, maxTokens: int, items: seq<string>, st: PackState, st': PackState, item: string)
    requires CoverInv(items, st)
    requires |st.closed| == 0 ==> st.current.seed == []
    requires st.count == WordTotal(st.current.Items())
    requires BodiesInv(mode, maxTokens, items, st)
    requires Overflows(mode, maxTokens, st, item)
    requires st'.closed == st.closed + [st.current]
    ensures BodiesInv(mode, maxTokens, items + [item], st')
  {
    assert (items + [item])[0] == if |items| == 0 then item else items[0];
  }

  /** Closing the current chunk keeps the invariant. */
  lemma CloseKeepsInv(mode: Mode, maxTokens: int, seeder: Seeder, prefix: seq<string>, st: PackState, item: string)
    requires CountsSeed(seeder)
    requires PackInv(mode, maxTokens, seeder, prefix, st)
    requires Overflows(mode, maxTokens, st, item)
    ensures PackInv(mode, maxTokens, seeder, prefix + [item], Close(mode, seeder, st, item))
  {
    var items := prefix + [item];
    var st' := Close(mode, seeder, st, item);
    assert CoverInv(items, st') by {
      FlattenBodiesSnoc(st.closed, st.current);
    }
    assert st'.count == WordTotal(st'.current.Items()) by {
      WordTotalAppend(st'.current.seed, item);
      assert st'.current.Items() == st'.current.seed + [item];
    }
    assert ChainInv(mode, seeder, st') by {
      ChainSnoc(mode, seeder, st, st');
    }
    assert BudgetInv(maxTokens, st') by {
      CloseBudget(maxTokens, st, st', item);
    }
    assert BodiesInv(mode, maxTokens, items, st') by {
      CloseBodies(mode, maxTokens, prefix, st, st', item);
    }
  }

  lemma AppendBudget(maxTokens: int, st: PackState, item: string)
    requires BudgetInv(maxTokens, st)
    requires |st.closed| > 0 ==> |st.current.body| > 0
    requires WordTotal(st.current.Items()) + WordCount(item) <= maxTokens || st.current.Items() == []
    ensures BudgetInv(maxTokens, Append(st, item))
  {
    assert Append(st, item).current.Items() == st.current.Items() + [item];
    WordTotalAppend(st.current.Items(), item);
  }

  lemma AppendCovers(items: seq<string>, st: PackState, item: string)
    requires CoverInv(items, st)
    ensures CoverInv(items + [item], Append(st, item))
  {
    assert Flatten(Bodies(st.closed)) + (st.current.body + [item])
        == (Flatten(Bodies(st.closed)) + st.current.body) + [item];
  }

  lemma AppendCount(st: PackState, item: string)
    requires st.count == WordTotal(st.current.Items())
    ensures Append(st, item).count == WordTotal(Append(st, item).current.Items())
  {
    assert Append(st, item).current.Items() == st.current.Items() + [item];
    WordTotalAppend(st.current.Items(), item);
  }

  lemma AppendChain(mode: Mode, seeder: Seeder, st: PackState, item: string)
    requires ChainInv(mode, seeder, st)
    ensures ChainInv(mode, seeder, Append(st, item))
  {
    var st' := Append(st, item);
    assert st'.closed == st.closed && st'.current.seed == st.current.seed;
  }

  lemma AppendBodies(mode: Mode, maxTokens: int, items: seq<string>, st: PackState, item: string)
    requires CoverInv(items, st)
    requires BodiesInv(mode, maxTokens, items, st)
    requires !Overflows(mode, maxTokens, st, item)
    ensures BodiesInv(mode, maxTokens, items + [item], Append(st, item))
  {
    assert (items + [item])[0] == if |items| == 0 then item else items[0];
  }

  /** Adding the item to the current chunk keeps the invariant. */
  lemma AppendKeepsInv(mode: Mode, maxTokens: int, seeder: Seeder, prefix: seq<string>, st: PackState, item: string)
    requires PackInv(mode, maxTokens, seeder, prefix, st)
    requires !Overflows(mode, maxTokens, st, item)
    ensures PackInv(mode, maxTokens, seeder, prefix + [item], Append(st, item))
  {
    var st' := Append(st, item);
    assert CoverInv(prefix + [item], st') by {
      AppendCovers(prefix, st, item);
    }
    assert st'.count == WordTotal(st'.current.Items()) by {
      AppendCount(st, item);
    }
    assert ChainInv(mode, seeder, st') by {
      AppendChain(mode, seeder, st, item);
    }
    assert BudgetInv(maxTokens, st') by {
      AppendBudget(maxTokens, st, item);
    }
    assert BodiesInv(mode, maxTokens, prefix + [item], st') by {
      AppendBodies(mode, maxTokens, prefix, st, item);
    }
  }

  /** One loop iteration keeps the invariant. */
  lemma StepKeepsInv(mode: Mode, maxTokens: int, seeder: Seeder, prefix: seq<string>, st: PackState, item: string)
    requires CountsSeed(seeder)
    requires PackInv(mode, maxTokens, seeder, prefix, st)
    ensures PackInv(mode, maxTokens, seeder, prefix + [item], Step(mode, maxTokens, seeder, st, item))
  {
    if Overflows(mode, maxTokens, st, item) {
      CloseKeepsInv(mode, maxTokens, seeder, prefix, st, item);
    } else {
      AppendKeepsInv(mode, maxTokens, seeder, prefix, st, item);
    }
  }

  /** The loop, as a fold over the items seen so far. */
  function Run(mode: Mode, maxTokens: int, seeder: Seeder, items: seq<string>): (st: PackState)
    requires CountsSeed(seeder)
    ensures PackInv(mode, maxTokens, seeder, items, st)
  {
    if |items| == 0 then Start
    else
      var prefix, item := items[..|items| - 1], items[|items| - 1];
      assert prefix + [item] == items;
      var prev := Run(mode, maxTokens, seeder, prefix);
      StepKeepsInv(mode, maxTokens, seeder, prefix, prev, item);
      Step(mode, maxTokens, seeder, prev, item)
  }

  lemma FinishedChain(mode: Mode, seeder: Seeder, st: PackState)
    requires ChainInv(mode, seeder, st)
    ensures SeedsChained(mode, seeder, st.closed + [st.current])
  {
    var gs := st.closed + [st.current];
    forall k | 0 < k < |gs|
      ensures SeededFrom(mode, seeder, gs, k)
    {
      assert gs[k - 1] == st.closed[k - 1];
      if k < |st.closed| {
        assert gs[k] == st.closed[k];
        assert SeededFrom(mode, seeder, st.closed, k);
      }
    }
  }

  lemma FinishedBudget(maxTokens: int, st: PackState)
    requires BudgetInv(maxTokens, st)
    ensures WithinBudget(maxTokens, st.closed + [st.current])
    ensures ClosedWhenFull(maxTokens, st.closed + [st.current])
  {
    var gs := st.closed + [st.current];
    forall k | 0 <= k < |gs|
      ensures WordTotal(gs[k].Items()) <= maxTokens || |gs[k].body| <= 1
    {
      if k < |st.closed| { assert gs[k] == st.closed[k]; }
    }
    forall k | 0 < k < |gs|
      ensures FullBefore(maxTokens, gs, k)
    {
      assert gs[k - 1] == st.closed[k - 1];
      if k < |st.closed| {
        assert gs[k] == st.closed[k];
        assert FullBefore(maxTokens, st.closed, k);
      }
    }
  }

  lemma FinishedBodies(mode: Mode, maxTokens: int, items: seq<string>, st: PackState)
    requires CoverInv(items, st)
    requires BodiesInv(mode, maxTokens, items, st)
    requires |items| > 0
    ensures var gs := st.closed + [st.current];
      && (forall k :: 0 <= k < |gs| && (k > 0 || !ClosesEmpty(mode)) ==> |gs[k].body| > 0)
      && (gs[0].body == [] <==> ClosesEmpty(mode) && WordCount(items[0]) > maxTokens)
  {
    var gs := st.closed + [st.current];
    assert forall k :: 0 <= k < |st.closed| ==> gs[k] == st.closed[k];
    assert gs[|st.closed|] == st.current;
  }

  /** The loop state at the end satisfies the properties of a finished list. */
  lemma FinishedChunks(mode: Mode, maxTokens: int, seeder: Seeder, items: seq<string>, st: PackState)
    requires PackInv(mode, maxTokens, seeder, items, st)
    requires |items| > 0
    ensures var gs := st.closed + [st.current];
      && Covers(gs, items)
      && SeedsChained(mode, seeder, gs)
      && WithinBudget(maxTokens, gs)
      && ClosedWhenFull(maxTokens, gs)
      && (forall k :: 0 <= k < |gs| && (k > 0 || !ClosesEmpty(mode)) ==> |gs[k].body| > 0)
      && (gs[0].body == [] <==> ClosesEmpty(mode) && WordCount(items[0]) > maxTokens)
  {
    FlattenBodiesSnoc(st.closed, st.current);
    FinishedChain(mode, seeder, st);
    FinishedBudget(maxTokens, st);
    FinishedBodies(mode, maxTokens, items, st);
  }

  /** The chunks the source returns, as groups: the closed ones, then the last
      one if it is non-empty (`if current_chunk: chunks.append(...)`). */
  function Pack(mode: Mode, maxTokens: int, seeder: Seeder, items: seq<string>): (gs: seq<Group>)
    requires CountsSeed(seeder)
    ensures |gs| == 0 <==> |items| == 0
    ensures Covers(gs, items)
    ensures SeedsChained(mode, seeder, gs)
    ensures WithinBudget(maxTokens, gs)
    ensures ClosedWhenFull(maxTokens, gs)
    ensures forall k :: 0 <= k < |gs| && (k > 0 || !ClosesEmpty(mode)) ==> |gs[k].body| > 0
    ensures |items| > 0 ==> (gs[0].body == [] <==> ClosesEmpty(mode) && WordCount(items[0]) > maxTokens)
  {
    var st := Run(mode, maxTokens, seeder, items);
    if |st.current.Items()| > 0 then
      FinishedChunks(mode, maxTokens, seeder, items, st);
      st.closed + [st.current]
    else
      st.closed
  }

  /** The chunk strings the source returns. */
  function Chunks(mode: Mode, maxTokens: int, seeder: Seeder, items: seq<string>): seq<string>
    requires CountsSeed(seeder)
  {
    var gs := Pack(mode, maxTokens, seeder, items);
    seq(|gs|, k requires 0 <= k < |gs| => Render(mode, gs[k].Items()))
  }

  /** Chunk `k` is the rendering of its seed and body, and its seed is the one
      the seed rule gives for the text of chunk `k - 1` (none for the first). */
  lemma ChunksLayout(mode: Mode, maxTokens: int, seeder: Seeder, items: seq<string>)
    requires CountsSeed(seeder)
    ensures var gs := Pack(mode, maxTokens, seeder, items);
      var chunks := Chunks(mode, maxTokens, seeder, items);
      && |chunks| == |gs|
      && (forall k :: 0 <= k < |gs| ==> chunks[k] == Render(mode, gs[k].seed + gs[k].body))
      && (|gs| > 0 ==> gs[0].seed == [])
      && (forall k :: 0 < k < |gs| ==> gs[k].seed == seeder(chunks[k - 1]).0)
  {
    var gs := Pack(mode, maxTokens, seeder, items);
    forall k | 0 < k < |gs|
      ensures gs[k].seed == seeder(Render(mode, gs[k - 1].Items())).0
    {
      assert SeededFrom(mode, seeder, gs, k);
    }
  }

  /** `ChunksLayout` at one index. */
  lemma ChunkLayoutAt(mode: Mode, maxTokens: int, seeder: Seeder, items: seq<string>, k: nat)
    requires CountsSeed(seeder)
    requires k < |Pack(mode, maxTokens, seeder, items)|
    ensures var gs, chunks := Pack(mode, maxTokens, seeder, items), Chunks(mode, maxTokens, seeder, items);
      && |chunks| == |gs|
      && chunks[k] == Render(mode, gs[k].seed + gs[k].body)
      && (k == 0 ==> gs[k].seed == [])
      && (k > 0 ==> gs[k].seed == seeder(chunks[k - 1]).0)
  {
    ChunksLayout(mode, maxTokens, seeder, items);
  }
}
