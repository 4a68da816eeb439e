/** `chunk_judgment`, in its two copies: split the judgment into sections,
    chunk every section's text, and emit one record per chunk carrying the
    section name, the id `f"{name}_{i+1}"` and the chunk text, section by
    section in the dict's insertion order.

    chunking.py (lines 141-161) segments by markup and chunks each section
    with the sentence chunker; the sentencizer is the parameter `sentencize`.
    app.py (lines 101-113) segments by heading phrases, skips the sections
    named `"legal context"` or `"costs"` (any case), and chunks the rest with
    the guarded line-window chunker. */
module Pipeline {
  import opened Text
  import opened SectionMap
  import opened ChunkIds
  import MarkupSegmenter
  import PhraseSegmenter
  import SentenceChunker
  import WindowChunker

  /** `{"section": ..., "chunk_id": ..., "text": ...}`. */
  datatype Record = Record(section: string, chunkId: string, text: string)

  /** The records of one section: `for i, chunk in enumerate(windows)`. */
  function SectionRecords(name: string, windows: seq<string>): seq<Record> {
    seq(|windows|, i requires 0 <= i < |windows| => Record(name, ChunkId(name, i + 1), windows[i]))
  }

  /** The total number of chunks the sections produce. */
  function Total(ss: seq<Entry>, chunker: string -> seq<string>): nat {
    if |ss| == 0 then 0 else |chunker(ss[0].value)| + Total(ss[1..], chunker)
  }

  /** The loop over `sections.items()`. */
  function Assemble(ss: seq<Entry>, chunker: string -> seq<string>): (rs: seq<Record>)
    ensures |rs| == Total(ss, chunker)
  {
    if |ss| == 0 then [] else SectionRecords(ss[0].key, chunker(ss[0].value)) + Assemble(ss[1..], chunker)
  }

  // ---------------------------------------------------------------------------
  // The two pipelines
  // ---------------------------------------------------------------------------

  /** The sentence chunker with the sentencizer and settings fixed. */
  function BySentences(sentencize: string -> seq<string>, maxTokens: int, overlap: int): string -> seq<string> {
    text => SentenceChunker.SentenceChunks(text, sentencize(text), maxTokens, overlap)
  }

  /** `chunk_judgment` of chunking.py. */
  function ChunkJudgment(ps: seq<MarkupSegmenter.Paragraph>, sentencize: string -> seq<string>, maxTokens: int, overlap: int): seq<Record> {
    Assemble(MarkupSegmenter.SplitIntoSections(ps), BySentences(sentencize, maxTokens, overlap))
  }

  /** The sections app.py's `chunk_judgment` passes over. */
  predicate Skipped(name: string) {
    Lower(name) == "legal context" || Lower(name) == "costs"
  }

  /** The sections that are not skipped, in order. */
  function Kept(ss: seq<Entry>): seq<Entry> {
    if |ss| == 0 then []
    else (if Skipped(ss[0].key) then [] else [ss[0]]) + Kept(ss[1..])
  }

  /** The sections kept are exactly those whose name is not skipped. */
  lemma {:induction false} KeptMembers(ss: seq<Entry>)
    ensures forall e :: e in Kept(ss) <==> e in ss && !Skipped(e.key)
  {
    if |ss| > 0 {
      KeptMembers(ss[1..]);
      assert ss == [ss[0]] + ss[1..];
    }
  }

  /** The positions, counted from `base`, of the sections of `ss` that are kept. */
  function KeptFrom(ss: seq<Entry>, base: nat): seq<nat> {
    if |ss| == 0 then []
    else (if Skipped(ss[0].key) then [] else [base]) + KeptFrom(ss[1..], base + 1)
  }

  /** The position in `ss` of each kept section. */
  function KeptIndices(ss: seq<Entry>): seq<nat> {
    KeptFrom(ss, 0)
  }

  lemma {:induction false} KeptLength(ss: seq<Entry>, base: nat)
    ensures |KeptFrom(ss, base)| == |Kept(ss)|
  {
    if |ss| > 0 {
      KeptLength(ss[1..], base + 1);
    }
  }

  /** The `a`-th kept section is the entry at position `KeptFrom(ss, base)[a] - base`. */
  lemma {:induction false} KeptAt(ss: seq<Entry>, base: nat, a: nat)
    requires a < |KeptFrom(ss, base)|
    ensures base <= KeptFrom(ss, base)[a] < base + |ss|
    ensures a < |Kept(ss)| && Kept(ss)[a] == ss[KeptFrom(ss, base)[a] - base]
  {
    KeptLength(ss, base);
    var n := if Skipped(ss[0].key) then 0 else 1;
    if a >= n {
      KeptAt(ss[1..], base + 1, a - n);
      var i := KeptFrom(ss[1..], base + 1)[a - n];
      assert KeptFrom(ss, base)[a] == i;
      assert Kept(ss)[a] == Kept(ss[1..])[a - n];
      assert ss[1..][i - base - 1] == ss[i - base];
    }
  }

  /** The positions of the kept sections strictly increase. */
  lemma {:induction false} KeptIncreasing(ss: seq<Entry>, base: nat, a: nat, b: nat)
    requires a < b < |KeptFrom(ss, base)|
    ensures KeptFrom(ss, base)[a] < KeptFrom(ss, base)[b]
  {
    var n := if Skipped(ss[0].key) then 0 else 1;
    var rest := KeptFrom(ss[1..], base + 1);
    assert KeptFrom(ss, base)[b] == rest[b - n];
    KeptAt(ss[1..], base + 1, b - n);
    if a >= n {
      KeptIncreasing(ss[1..], base + 1, a - n, b - n);
      assert KeptFrom(ss, base)[a] == rest[a - n];
    }
  }

  /** The kept sections keep the dict's order: the `a`-th of them is the
      entry at position `KeptIndices(ss)[a]`, and those positions strictly
      increase. */
  lemma KeptInOrder(ss: seq<Entry>)
    ensures var idx, kept := KeptIndices(ss), Kept(ss);
      && |idx| == |kept|
      && (forall a :: 0 <= a < |idx| ==> idx[a] < |ss| && kept[a] == ss[idx[a]])
      && (forall a, b :: 0 <= a < b < |idx| ==> idx[a] < idx[b])
  {
    KeptLength(ss, 0);
    forall a | 0 <= a < |KeptIndices(ss)| {
      KeptAt(ss, 0, a);
    }
    forall a, b | 0 <= a < b < |KeptIndices(ss)| {
      KeptIncreasing(ss, 0, a, b);
    }
  }

  /** The guarded line-window chunker with the settings fixed. */
  function ByWindows(maxTokens: int, overlap: int): string -> seq<string> {
    text => WindowChunker.GuardedSlidingWindow(text, maxTokens, overlap)
  }

  /** `chunk_judgment` of app.py. */
  function LegacyChunkJudgment(parts: seq<string>, isHeading: string -> bool, maxTokens: int, overlap: int): seq<Record> {
    Assemble(Kept(PhraseSegmenter.SplitIntoSections(isHeading, parts)), ByWindows(maxTokens, overlap))
  }

  // ---------------------------------------------------------------------------
  // Layout of the records
  // ---------------------------------------------------------------------------

  /** The chunks of the first `j + 1` sections are those of the first, then
      those of the next `j`. */
  lemma TotalPrefix(ss: seq<Entry>, chunker: string -> seq<string>, j: nat)
    requires j < |ss|
    ensures Total(ss[..j + 1], chunker) == |chunker(ss[0].value)| + Total(ss[1..][..j], chunker)
  {
    assert ss[..j + 1][0] == ss[0] && ss[..j + 1][1..] == ss[1..][..j];
  }

  /** Chunk `i` of section `j` is the record at `Total(ss[..j]) + i`: it names
      the section, has id `name_{i+1}` and carries the chunk. So the records
      run section by section in map order, chunk by chunk within a section,
      with ids numbered from 1 without gaps. */
  lemma {:induction false} RecordAt(ss: seq<Entry>, chunker: string -> seq<string>, j: nat, i: nat)
    requires j < |ss| && i < |chunker(ss[j].value)|
    ensures Total(ss[..j], chunker) + i < |Assemble(ss, chunker)|
    ensures Assemble(ss, chunker)[Total(ss[..j], chunker) + i]
         == Record(ss[j].key, ChunkId(ss[j].key, i + 1), chunker(ss[j].value)[i])
  {
    var head := SectionRecords(ss[0].key, chunker(ss[0].value));
    var tail := Assemble(ss[1..], chunker);
    assert Assemble(ss, chunker) == head + tail;
    if j == 0 {
      assert ss[..j] == [];
    } else {
      RecordAt(ss[1..], chunker, j - 1, i);
      TotalPrefix(ss, chunker, j - 1);
    }
  }

  /** The section `j` and chunk `i` the record at position `k` comes from. */
  function Locate(ss: seq<Entry>, chunker: string -> seq<string>, k: nat): (loc: (nat, nat))
    requires k < Total(ss, chunker)
    ensures loc.0 < |ss| && loc.1 < |chunker(ss[loc.0].value)|
    ensures k == Total(ss[..loc.0], chunker) + loc.1
  {
    var n := |chunker(ss[0].value)|;
    if k < n then
      assert ss[..0] == [];
      (0, k)
    else
      var loc := Locate(ss[1..], chunker, k - n);
      TotalPrefix(ss, chunker, loc.0);
      (loc.0 + 1, loc.1)
  }

  /** Every record is chunk `i` of section `j` for the `(j, i)` its position
      locates, with the id `name_{i+1}`. */
  lemma RecordOf(ss: seq<Entry>, chunker: string -> seq<string>, k: nat)
    requires k < |Assemble(ss, chunker)|
    ensures var loc := Locate(ss, chunker, k);
      Assemble(ss, chunker)[k]
        == Record(ss[loc.0].key, ChunkId(ss[loc.0].key, loc.1 + 1), chunker(ss[loc.0].value)[loc.1])
  {
    var loc := Locate(ss, chunker, k);
    RecordAt(ss, chunker, loc.0, loc.1);
  }

  /** With no section name twice, no two records share an id. */
  lemma IdsUnique(ss: seq<Entry>, chunker: string -> seq<string>)
    requires Distinct(ss)
    ensures var rs := Assemble(ss, chunker);
      forall a, b :: 0 <= a < b < |rs| ==> rs[a].chunkId != rs[b].chunkId
  {
    var rs := Assemble(ss, chunker);
    forall a, b | 0 <= a < b < |rs|
      ensures rs[a].chunkId != rs[b].chunkId
    {
      var la, lb := Locate(ss, chunker, a), Locate(ss, chunker, b);
      RecordOf(ss, chunker, a);
      RecordOf(ss, chunker, b);
      ChunkIdInjective(ss[la.0].key, la.1 + 1, ss[lb.0].key, lb.1 + 1);
      assert la != lb;
      assert la.0 != lb.0 ==> ss[la.0].key != ss[lb.0].key;
    }
  }

  // ---------------------------------------------------------------------------
  // What the two pipelines promise
  // ---------------------------------------------------------------------------

  /** A key of `ss[1..]` is not the key of `ss[0]` when no key repeats. */
  lemma TailKeys(ss: seq<Entry>)
    requires |ss| > 0 && Distinct(ss)
    ensures Distinct(ss[1..])
    ensures ss[0].key !in Keys(ss[1..])
  {
    assert forall i :: 0 <= i < |ss| - 1 ==> Keys(ss[1..])[i] == ss[i + 1].key;
  }

  /** Skipping sections keeps the names distinct. */
  lemma KeptDistinct(ss: seq<Entry>)
    requires Distinct(ss)
    ensures Distinct(Kept(ss))
  {
    if |ss| > 0 {
      TailKeys(ss);
      KeptDistinct(ss[1..]);
      KeptMembers(ss[1..]);
      var rest := Kept(ss[1..]);
      forall k | 0 <= k < |rest|
        ensures rest[k].key != ss[0].key
      {
        assert rest[k] in ss[1..];
        assert rest[k].key in Keys(ss[1..]);
      }
    }
  }

  /** chunking.py: no record belongs to a `"legal context"` or `"costs"`
      section, every record's section is `"intro"` or a heading label met
      once the gate is open, and no two records share an id. */
  lemma ChunkJudgmentRecords(ps: seq<MarkupSegmenter.Paragraph>, sentencize: string -> seq<string>, maxTokens: int, overlap: int)
    ensures var rs := ChunkJudgment(ps, sentencize, maxTokens, overlap);
      && (forall k :: 0 <= k < |rs| ==> rs[k].section != "legal context" && rs[k].section != "costs")
      && (forall k :: 0 <= k < |rs| ==>
            rs[k].section == "intro"
            || rs[k].section in MarkupSegmenter.OpenLabels(false, MarkupSegmenter.Prepare(ps)))
      && (forall a, b :: 0 <= a < b < |rs| ==> rs[a].chunkId != rs[b].chunkId)
  {
    var ss := MarkupSegmenter.SplitIntoSections(ps);
    var chunker := BySentences(sentencize, maxTokens, overlap);
    var rs := Assemble(ss, chunker);
    assert rs == ChunkJudgment(ps, sentencize, maxTokens, overlap);
    var labels := MarkupSegmenter.OpenLabels(false, MarkupSegmenter.Prepare(ps));
    MarkupSegmenter.SplitIntoSectionsShape(ps);
    forall k | 0 <= k < |rs|
      ensures rs[k].section != "legal context" && rs[k].section != "costs"
      ensures rs[k].section == "intro" || rs[k].section in labels
    {
      var j := Locate(ss, chunker, k).0;
      RecordOf(ss, chunker, k);
      assert rs[k].section == ss[j].key;
    }
    IdsUnique(ss, chunker);
  }

  /** app.py: no record belongs to a section whose lower-cased name is
      `"legal context"` or `"costs"`, no record's text is empty, and no two
      records share an id. */
  lemma LegacyChunkJudgmentRecords(parts: seq<string>, isHeading: string -> bool, maxTokens: int, overlap: int)
    ensures var rs := LegacyChunkJudgment(parts, isHeading, maxTokens, overlap);
      && (forall k :: 0 <= k < |rs| ==> !Skipped(rs[k].section))
      && (forall k :: 0 <= k < |rs| ==> rs[k].text != "")
      && (forall a, b :: 0 <= a < b < |rs| ==> rs[a].chunkId != rs[b].chunkId)
  {
    var all := PhraseSegmenter.SplitIntoSections(isHeading, parts);
    var ss := Kept(all);
    var chunker := ByWindows(maxTokens, overlap);
    var rs := Assemble(ss, chunker);
    assert rs == LegacyChunkJudgment(parts, isHeading, maxTokens, overlap);
    PhraseSegmenter.SectionsShape(isHeading, parts);
    KeptDistinct(all);
    KeptMembers(all);
    forall k | 0 <= k < |rs|
      ensures !Skipped(rs[k].section) && rs[k].text != ""
    {
      var loc := Locate(ss, chunker, k);
      RecordOf(ss, chunker, k);
      assert ss[loc.0] in ss;
      assert chunker(ss[loc.0].value) == WindowChunker.GuardedSlidingWindow(ss[loc.0].value, maxTokens, overlap);
    }
    IdsUnique(ss, chunker);
  }
}
