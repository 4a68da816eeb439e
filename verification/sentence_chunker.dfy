/** `spacy_sentence_chunker` of chunking.py (lines 171-227).

    Whitespace-only text gives the single chunk `""`. Otherwise the text is cut
    into sentences by spaCy's rule-based sentencizer, which is not modelled:
    its output is the parameter `sentences`. The sentences are packed greedily
    with the guarded test `word_count + sent_len > max_tokens and
    current_chunk`, joined with single spaces, and the chunk after a close
    starts with the last `overlap` words of the chunk just closed. */
module SentenceChunker {
  import opened Text
  import opened Packing

  /** The words a new chunk starts with: `" ".join(current_chunk).split()[-overlap:]`
      when overlap is on, nothing otherwise. */
  function OverlapTokens(prev: string, overlap: int): (tokens: seq<string>)
    ensures |tokens| == if overlap <= 0 then 0 else if overlap < WordCount(prev) then overlap else WordCount(prev)
    ensures Words(prev) == Words(prev)[..|Words(prev)| - |tokens|] + tokens
  {
    if overlap > 0 then LastN(Words(prev), overlap) else []
  }

  /** The chunks of `text`, given the sentences the sentencizer finds in it. */
  function SentenceChunks(text: string, sentences: seq<string>, maxTokens: int, overlap: int): (chunks: seq<string>)
    ensures IsBlank(text) ==> chunks == [""]
    ensures !IsBlank(text) ==> (chunks == [] <==> sentences == [])
  {
    StripBlank(text);
    if Strip(text) == "" then [""]
    else Chunks(Sentences, maxTokens, SeederOf(Sentences, overlap), sentences)
  }

  /** A chunk seeded from the chunk `prev` is the overlap words of `prev`
      followed by its own sentences, all joined by single spaces. */
  lemma SeededChunk(overlap: int, prev: string, g: Group)
    requires g.seed == SeederOf(Sentences, overlap)(prev).0
    ensures g.Items() == OverlapTokens(prev, overlap) + g.body
  {
  }

  /** Chunk `k` is the overlap words of chunk `k - 1` (none for the first)
      followed by its sentences, joined by single spaces. */
  lemma ChunkAt(sentences: seq<string>, maxTokens: int, overlap: int, k: nat)
    requires k < |Pack(Sentences, maxTokens, SeederOf(Sentences, overlap), sentences)|
    ensures var gs := Pack(Sentences, maxTokens, SeederOf(Sentences, overlap), sentences);
      var chunks := Chunks(Sentences, maxTokens, SeederOf(Sentences, overlap), sentences);
      chunks[k] == JoinSep(" ", (if k == 0 then [] else OverlapTokens(chunks[k - 1], overlap)) + gs[k].body)
  {
    var seeder := SeederOf(Sentences, overlap);
    var gs := Pack(Sentences, maxTokens, seeder, sentences);
    var chunks := Chunks(Sentences, maxTokens, seeder, sentences);
    ChunkLayoutAt(Sentences, maxTokens, seeder, sentences, k);
    if k == 0 {
      assert [] + gs[0].body == gs[0].seed + gs[0].body;
    } else {
      SeededChunk(overlap, chunks[k - 1], gs[k]);
    }
  }

  /** Every chunk is the overlap words of its predecessor (none for the first)
      followed by a non-empty run of sentences; the runs, in order, are
      exactly the sentences. */
  lemma SentenceLayout(sentences: seq<string>, maxTokens: int, overlap: int)
    ensures var gs := Pack(Sentences, maxTokens, SeederOf(Sentences, overlap), sentences);
      var chunks := Chunks(Sentences, maxTokens, SeederOf(Sentences, overlap), sentences);
      && |chunks| == |gs|
      && Flatten(Bodies(gs)) == sentences
      && (forall k :: 0 <= k < |gs| ==> |gs[k].body| > 0)
      && forall k :: 0 <= k < |gs| ==>
           chunks[k] == JoinSep(" ", (if k == 0 then [] else OverlapTokens(chunks[k - 1], overlap)) + gs[k].body)
  {
    var gs := Pack(Sentences, maxTokens, SeederOf(Sentences, overlap), sentences);
    forall k | 0 <= k < |gs| {
      ChunkAt(sentences, maxTokens, overlap, k);
    }
  }

  /** With overlap off a chunk has no overlap words. */
  lemma UnseededChunk(overlap: int, prev: string, g: Group)
    requires overlap <= 0
    requires g.seed == SeederOf(Sentences, overlap)(prev).0
    ensures g.Items() == g.body
  {
    assert g.seed == [];
  }

  /** With overlap off, joining the chunks with single spaces gives the
      sentences joined with single spaces. */
  lemma ChunksRejoin(sentences: seq<string>, maxTokens: int, overlap: int)
    requires overlap <= 0
    ensures JoinSep(" ", Chunks(Sentences, maxTokens, SeederOf(Sentences, overlap), sentences)) == JoinSep(" ", sentences)
  {
    var seeder := SeederOf(Sentences, overlap);
    var gs := Pack(Sentences, maxTokens, seeder, sentences);
    var chunks := Chunks(Sentences, maxTokens, seeder, sentences);
    var bodies := Bodies(gs);
    assert |chunks| == |gs|;
    forall k | 0 <= k < |gs|
      ensures chunks[k] == JoinSep(" ", bodies[k])
    {
      ChunkLayoutAt(Sentences, maxTokens, seeder, sentences, k);
      if k > 0 {
        UnseededChunk(overlap, chunks[k - 1], gs[k]);
      } else {
        assert gs[k].seed + gs[k].body == gs[k].body;
      }
    }
    JoinFlatten(" ", bodies, chunks);
  }

  /** chunking.py, overlap 0: the chunks of non-blank text, joined with single
      spaces, are the sentences joined with single spaces. */
  lemma SentencesRejoin(text: string, sentences: seq<string>, maxTokens: int, overlap: int)
    requires !IsBlank(text)
    requires overlap <= 0
    ensures JoinSep(" ", SentenceChunks(text, sentences, maxTokens, overlap)) == JoinSep(" ", sentences)
  {
    StripBlank(text);
    ChunksRejoin(sentences, maxTokens, overlap);
  }
}
