/** `split_into_sections` of chunking.py (lines 44-75): the markup-driven
    segmenter.

    The judgment arrives as its `<p>` elements in document order. For each
    one the model takes the text BeautifulSoup extracts and whether the
    element's markup matches the bold-paragraph heading pattern; the HTML
    parsing and the regular expression are not modelled. The first thing the
    loop body does is normalize the text (`p_text`); everything after looks
    only at `p_text` and the heading flag, so the fold runs over the same
    paragraphs with their texts normalized. The fold keeps a gate (`is_judgment_found`), the
    current label (`heading`, first `"intro"`), a buffer of paragraph texts,
    and the label-to-text map. */
module MarkupSegmenter {
  import opened Text
  import opened SectionMap

  /** A `<p>` element: `p.get_text()` (or `p_text` once normalized) and
      whether `str(p)` matches the heading pattern. */
  datatype Paragraph = Paragraph(text: string, isHeading: bool)

  /** `p.get_text().replace("\xa0", " ").strip()`. */
  function Normalize(raw: string): string {
    Strip(seq(|raw|, i requires 0 <= i < |raw| => if raw[i] == '\U{A0}' then ' ' else raw[i]))
  }

  /** The paragraphs as the loop body sees them. */
  function Prepare(ps: seq<Paragraph>): (qs: seq<Paragraph>)
    ensures |qs| == |ps|
    ensures forall i :: 0 <= i < |ps| ==> qs[i] == Paragraph(Normalize(ps[i].text), ps[i].isHeading)
  {
    seq(|ps|, i requires 0 <= i < |ps| => Paragraph(Normalize(ps[i].text), ps[i].isHeading))
  }

  /** The paragraph that stops the scan, heading or not. */
  predicate IsCosts(q: Paragraph) {
    Lower(q.text) == "costs"
  }

  datatype SegState = SegState(judgmentFound: bool, heading: string, buffer: seq<string>, sections: seq<Entry>)

  const Init := SegState(false, "intro", [], [])

  /** The flush test: a non-empty buffer that is not just its own heading, under
      any label but `"legal context"`. */
  predicate Keeps(heading: string, buffer: seq<string>) {
    |buffer| > 0 && !(|buffer| == 1 && Lower(buffer[0]) == heading) && heading != "legal context"
  }

  /** `sections[heading] = "\n".join(buffer)` when the flush test passes. */
  function Store(sections: seq<Entry>, heading: string, buffer: seq<string>): seq<Entry> {
    if Keeps(heading, buffer) then Put(sections, heading, JoinSep("\n", buffer)) else sections
  }

  function Flush(st: SegState): seq<Entry> {
    Store(st.sections, st.heading, st.buffer)
  }

  /** A heading reading `"judgment"`: it opens the gate. */
  predicate IsJudgmentHeading(q: Paragraph) {
    q.isHeading && Lower(q.text) == "judgment"
  }

  /** The loop body for a paragraph other than `"costs"`. */
  function Step(st: SegState, q: Paragraph): SegState {
    var found := st.judgmentFound || IsJudgmentHeading(q);
    if q.isHeading && found then SegState(found, Lower(q.text), [q.text], Flush(st))
    else SegState(found, st.heading, st.buffer + [q.text], st.sections)
  }

  /** The `for` loop, with its `break` at `"costs"`. */
  function Scan(st: SegState, qs: seq<Paragraph>): SegState
    decreases |qs|
  {
    if |qs| == 0 || IsCosts(qs[0]) then st else Scan(Step(st, qs[0]), qs[1..])
  }

  /** The loop and the final flush. */
  function Segment(qs: seq<Paragraph>): seq<Entry> {
    Flush(Scan(Init, qs))
  }

  function SplitIntoSections(ps: seq<Paragraph>): seq<Entry> {
    Segment(Prepare(ps))
  }

  // ---------------------------------------------------------------------------
  // What the scan sees
  // ---------------------------------------------------------------------------

  /** The paragraphs before the first `"costs"`. */
  function UpToCosts(qs: seq<Paragraph>): (pre: seq<Paragraph>)
    ensures |pre| <= |qs| && pre == qs[..|pre|]
    ensures forall i :: 0 <= i < |pre| ==> !IsCosts(pre[i])
    ensures |pre| < |qs| ==> IsCosts(qs[|pre|])
  {
    if |qs| == 0 || IsCosts(qs[0]) then []
    else
      var rest := UpToCosts(qs[1..]);
      assert [qs[0]] + rest == qs[..1 + |rest|];
      [qs[0]] + rest
  }

  /** The lower-cased texts of the headings met once the gate is open (the
      `"judgment"` heading included) and before the first `"costs"`; `found`
      says whether the gate is already open. */
  function OpenLabels(found: bool, qs: seq<Paragraph>): seq<string>
    decreases |qs|
  {
    if |qs| == 0 || IsCosts(qs[0]) then []
    else
      var found' := found || IsJudgmentHeading(qs[0]);
      (if qs[0].isHeading && found' then [Lower(qs[0].text)] else []) + OpenLabels(found', qs[1..])
  }

  function Texts(qs: seq<Paragraph>): (ts: seq<string>)
    ensures |ts| == |qs|
    ensures forall i :: 0 <= i < |qs| ==> ts[i] == qs[i].text
  {
    seq(|qs|, i requires 0 <= i < |qs| => qs[i].text)
  }

  /** A `"judgment"` heading among `qs`. */
  predicate OpensGate(qs: seq<Paragraph>) {
    exists i :: 0 <= i < |qs| && IsJudgmentHeading(qs[i])
  }

  // ---------------------------------------------------------------------------
  // The "costs" terminator
  // ---------------------------------------------------------------------------

  lemma {:induction false} ScanStopsAtCosts(st: SegState, qs: seq<Paragraph>)
    ensures Scan(st, qs) == Scan(st, UpToCosts(qs))
    decreases |qs|
  {
    if |qs| > 0 && !IsCosts(qs[0]) {
      var pre := UpToCosts(qs);
      assert pre[1..] == UpToCosts(qs[1..]);
      ScanStopsAtCosts(Step(st, qs[0]), qs[1..]);
    }
  }

  /** Scanning `a + b` is scanning `a`, then `b`, when `a` holds no `"costs"`. */
  lemma {:induction false} ScanAppend(st: SegState, a: seq<Paragraph>, b: seq<Paragraph>)
    requires forall i :: 0 <= i < |a| ==> !IsCosts(a[i])
    ensures Scan(st, a + b) == Scan(Scan(st, a), b)
    decreases |a|
  {
    if |a| == 0 {
      assert a + b == b;
    } else {
      assert (a + b)[0] == a[0];
      assert (a + b)[1..] == a[1..] + b;
      ScanAppend(Step(st, a[0]), a[1..], b);
    }
  }

  /** Nothing from the first `"costs"` paragraph on reaches the result. */
  lemma CostsTerminates(qs: seq<Paragraph>, i: nat)
    requires i < |qs| && IsCosts(qs[i])
    ensures Segment(qs) == Segment(qs[..i])
  {
    var pre := UpToCosts(qs);
    ScanStopsAtCosts(Init, qs);
    ScanStopsAtCosts(Init, qs[..i]);
    assert |pre| <= i by {
      assert forall j :: 0 <= j < |pre| ==> pre[j] == qs[j];
    }
    ScanAppend(Init, pre, qs[|pre|..i]);
    assert qs[..i] == pre + qs[|pre|..i];
    if |pre| < i {
      assert qs[|pre|..i][0] == qs[|pre|];
    } else {
      assert qs[|pre|..i] == [];
    }
  }

  /** The same for the `<p>` elements: a `"costs"` paragraph cuts the judgment off. */
  lemma SplitStopsAtCosts(ps: seq<Paragraph>, i: nat)
    requires i < |ps| && Lower(Normalize(ps[i].text)) == "costs"
    ensures SplitIntoSections(ps) == SplitIntoSections(ps[..i])
  {
    CostsTerminates(Prepare(ps), i);
    assert Prepare(ps)[..i] == Prepare(ps[..i]);
  }

  // ---------------------------------------------------------------------------
  // The gate
  // ---------------------------------------------------------------------------

  /** The single `"intro"` section a preamble with texts `ts` would produce. */
  function IntroSections(ts: seq<string>): seq<Entry> {
    if Keeps("intro", ts) then [Entry("intro", JoinSep("\n", ts))] else []
  }

  /** Before the gate opens the label stays `"intro"`, nothing is flushed, and
      every paragraph, heading or not, goes to the buffer. */
  lemma {:induction false} BeforeGate(st: SegState, qs: seq<Paragraph>)
    requires st.judgmentFound == false && st.heading == "intro" && st.sections == []
    requires forall i :: 0 <= i < |qs| ==> !IsCosts(qs[i])
    requires !OpensGate(qs)
    ensures Scan(st, qs) == SegState(false, "intro", st.buffer + Texts(qs), [])
    decreases |qs|
  {
    if |qs| == 0 {
      assert st.buffer + Texts(qs) == st.buffer;
    } else {
      var st' := Step(st, qs[0]);
      assert !OpensGate(qs[1..]) by {
        assert forall i :: 0 <= i < |qs[1..]| ==> qs[1..][i] == qs[i + 1];
      }
      assert !IsJudgmentHeading(qs[0]);
      BeforeGate(st', qs[1..]);
      assert st.buffer + Texts(qs) == st'.buffer + Texts(qs[1..]);
    }
  }

  /** A judgment with no `"judgment"` heading before `"costs"` is one `"intro"`
      section holding every paragraph before `"costs"`, or nothing. */
  lemma NoJudgmentMeansIntro(qs: seq<Paragraph>)
    requires !OpensGate(UpToCosts(qs))
    ensures Segment(qs) == IntroSections(Texts(UpToCosts(qs)))
  {
    ScanStopsAtCosts(Init, qs);
    BeforeGate(Init, UpToCosts(qs));
    assert [] + Texts(UpToCosts(qs)) == Texts(UpToCosts(qs));
  }

  /** The first `"judgment"` heading opens the gate: the preamble is flushed
      under `"intro"` (unless degenerate) and the judgment heading starts the
      next section. */
  lemma GateOpens(pre: seq<Paragraph>, j: Paragraph, post: seq<Paragraph>)
    requires forall i :: 0 <= i < |pre| ==> !IsCosts(pre[i])
    requires !OpensGate(pre)
    requires IsJudgmentHeading(j)
    ensures Segment(pre + [j] + post)
         == Flush(Scan(SegState(true, "judgment", [j.text], IntroSections(Texts(pre))), post))
  {
    assert !IsCosts(j);
    var a := pre + [j];
    assert forall i :: 0 <= i < |a| ==> !IsCosts(a[i]) by {
      assert forall i :: 0 <= i < |pre| ==> a[i] == pre[i];
    }
    ScanAppend(Init, a, post);
    ScanAppend(Init, pre, [j]);
    BeforeGate(Init, pre);
    assert [] + Texts(pre) == Texts(pre);
    var st := Scan(Init, pre);
    assert Scan(st, [j]) == Step(st, j) by {
      assert [j][1..] == [];
    }
  }

  // ---------------------------------------------------------------------------
  // A reference definition by runs
  // ---------------------------------------------------------------------------

  /** The longest run at the front of `qs` with no `"judgment"` heading: the
      preamble, which goes to `"intro"` whatever headings it holds. */
  function Preamble(qs: seq<Paragraph>): (pre: seq<Paragraph>)
    ensures |pre| <= |qs| && pre == qs[..|pre|]
    ensures forall i :: 0 <= i < |pre| ==> !IsJudgmentHeading(pre[i])
    ensures |pre| < |qs| ==> IsJudgmentHeading(qs[|pre|])
  {
    if |qs| == 0 || IsJudgmentHeading(qs[0]) then []
    else
      var rest := Preamble(qs[1..]);
      assert [qs[0]] + rest == qs[..1 + |rest|];
      [qs[0]] + rest
  }

  /** The longest run at the front of `qs` with no heading in it. */
  function Lead(qs: seq<Paragraph>): (run: seq<Paragraph>)
    ensures |run| <= |qs| && run == qs[..|run|]
    ensures forall i :: 0 <= i < |run| ==> !run[i].isHeading
    ensures |run| < |qs| ==> qs[|run|].isHeading
  {
    if |qs| == 0 || qs[0].isHeading then []
    else
      var rest := Lead(qs[1..]);
      assert [qs[0]] + rest == qs[..1 + |rest|];
      [qs[0]] + rest
  }

  /** The sections once the gate is open, run by run: the texts `pending`
      already collected under `heading`, extended by the texts of the
      non-heading run at the front of `qs`, are stored if they pass the flush
      test; the heading that ends the run starts the next run, under its
      lower-cased text and with its own text as the first line. */
  function Sectioned(heading: string, pending: seq<string>, qs: seq<Paragraph>, m: seq<Entry>): seq<Entry>
    decreases |qs|
  {
    var run := Lead(qs);
    var m' := Store(m, heading, pending + Texts(run));
    if |run| == |qs| then m'
    else Sectioned(Lower(qs[|run|].text), [qs[|run|].text], qs[|run| + 1..], m')
  }

  /** chunking.py's segmenter without the fold: of the paragraphs before
      `"costs"`, the preamble is the run of `"intro"`; from the first
      `"judgment"` heading on, every heading starts a run of its own text and
      the non-heading texts after it; the runs are stored in order, each under
      its label when it passes the flush test. */
  function Runs(qs: seq<Paragraph>): seq<Entry> {
    var pre := UpToCosts(qs);
    var intro := Preamble(pre);
    Sectioned("intro", Texts(intro), pre[|intro|..], [])
  }

  /** With nothing left, the runs end with the pending one. */
  lemma SectionedEnd(heading: string, pending: seq<string>, m: seq<Entry>)
    ensures Sectioned(heading, pending, [], m) == Store(m, heading, pending)
  {
    assert pending + Texts([]) == pending;
  }

  /** A heading first: the pending run is stored and the heading starts the next. */
  lemma SectionedHeading(heading: string, pending: seq<string>, qs: seq<Paragraph>, m: seq<Entry>)
    requires |qs| > 0 && qs[0].isHeading
    ensures Sectioned(heading, pending, qs, m)
         == Sectioned(Lower(qs[0].text), [qs[0].text], qs[1..], Store(m, heading, pending))
  {
    assert Lead(qs) == [];
    assert pending + Texts([]) == pending;
  }

  /** A non-heading first: its text joins the pending run. */
  lemma SectionedBody(heading: string, pending: seq<string>, qs: seq<Paragraph>, m: seq<Entry>)
    requires |qs| > 0 && !qs[0].isHeading
    ensures Sectioned(heading, pending, qs, m)
         == Sectioned(heading, pending + [qs[0].text], qs[1..], m)
  {
    var run := Lead(qs);
    var tail := Lead(qs[1..]);
    assert run == [qs[0]] + tail;
    assert pending + Texts(run) == (pending + [qs[0].text]) + Texts(tail);
    assert |run| == |qs| <==> |tail| == |qs[1..]|;
    if |run| < |qs| {
      assert qs[|run|] == qs[1..][|tail|];
      assert qs[|run| + 1..] == qs[1..][|tail| + 1..];
    }
  }

  /** Once the gate is open (or is opened by the first paragraph), the loop
      with its final flush is the run-by-run definition. */
  lemma {:induction false} FoldAsRuns(found: bool, heading: string, pending: seq<string>, qs: seq<Paragraph>, m: seq<Entry>)
    requires forall i :: 0 <= i < |qs| ==> !IsCosts(qs[i])
    requires found || |qs| == 0 || IsJudgmentHeading(qs[0])
    ensures Flush(Scan(SegState(found, heading, pending, m), qs)) == Sectioned(heading, pending, qs, m)
    decreases |qs|
  {
    var st := SegState(found, heading, pending, m);
    if |qs| == 0 {
      SectionedEnd(heading, pending, m);
    } else {
      var q := qs[0];
      assert !IsCosts(q);
      assert Scan(st, qs) == Scan(Step(st, q), qs[1..]);
      assert forall i :: 0 <= i < |qs[1..]| ==> qs[1..][i] == qs[i + 1];
      if q.isHeading {
        assert Step(st, q) == SegState(true, Lower(q.text), [q.text], Flush(st));
        FoldAsRuns(true, Lower(q.text), [q.text], qs[1..], Flush(st));
        SectionedHeading(heading, pending, qs, m);
      } else {
        assert Step(st, q) == SegState(found, heading, pending + [q.text], m);
        FoldAsRuns(found, heading, pending + [q.text], qs[1..], m);
        SectionedBody(heading, pending, qs, m);
      }
    }
  }

  /** chunking.py's segmenter is the run-by-run definition: every value is the
      `"\n"`-join of one run of paragraph texts, a label met again is
      overwritten by its last run that passes the flush test, and a run that
      fails the test leaves the map as it was. */
  lemma SegmentAsRuns(qs: seq<Paragraph>)
    ensures Segment(qs) == Runs(qs)
  {
    var pre := UpToCosts(qs);
    var intro := Preamble(pre);
    var post := pre[|intro|..];
    assert Segment(qs) == Flush(Scan(Init, pre)) by {
      ScanStopsAtCosts(Init, qs);
    }
    assert forall i :: 0 <= i < |intro| ==> !IsCosts(intro[i]) by {
      assert forall i :: 0 <= i < |intro| ==> intro[i] == pre[i];
    }
    assert Scan(Init, pre) == Scan(Scan(Init, intro), post) by {
      assert pre == intro + post;
      ScanAppend(Init, intro, post);
    }
    assert Scan(Init, intro) == SegState(false, "intro", Texts(intro), []) by {
      BeforeGate(Init, intro);
      assert [] + Texts(intro) == Texts(intro);
    }
    assert forall i :: 0 <= i < |post| ==> !IsCosts(post[i]) by {
      assert forall i :: 0 <= i < |post| ==> post[i] == pre[|intro| + i];
    }
    FoldAsRuns(false, "intro", Texts(intro), post, []);
  }

  /** Scanning past a `"judgment"` heading leaves the gate open. */
  lemma {:induction false} ScanOpens(st: SegState, qs: seq<Paragraph>)
    requires forall i :: 0 <= i < |qs| ==> !IsCosts(qs[i])
    requires st.judgmentFound || OpensGate(qs)
    ensures Scan(st, qs).judgmentFound
    decreases |qs|
  {
    if |qs| > 0 {
      var st' := Step(st, qs[0]);
      if !st'.judgmentFound {
        var i :| 0 <= i < |qs| && IsJudgmentHeading(qs[i]);
        assert i > 0 && qs[1..][i - 1] == qs[i];
      }
      ScanOpens(st', qs[1..]);
    }
  }

  /** Once the gate is open, a heading followed directly by another heading
      leaves no trace: its run holds only its own text and fails the flush
      test, so an earlier entry under the same label is not overwritten. */
  lemma HeadingOnlyRunDropped(a: seq<Paragraph>, h1: Paragraph, h2: Paragraph, b: seq<Paragraph>)
    requires forall i :: 0 <= i < |a| ==> !IsCosts(a[i])
    requires OpensGate(a)
    requires h1.isHeading && !IsCosts(h1) && h2.isHeading && !IsCosts(h2)
    ensures Segment(a + [h1, h2] + b) == Segment(a + [h2] + b)
  {
    var st := Scan(Init, a);
    ScanOpens(Init, a);
    var x := a + [h1, h2];
    var y := a + [h2];
    assert forall i :: 0 <= i < |x| ==> !IsCosts(x[i]) by {
      assert forall i :: 0 <= i < |a| ==> x[i] == a[i];
    }
    assert forall i :: 0 <= i < |y| ==> !IsCosts(y[i]) by {
      assert forall i :: 0 <= i < |a| ==> y[i] == a[i];
    }
    ScanAppend(Init, x, b);
    ScanAppend(Init, y, b);
    ScanAppend(Init, a, [h1, h2]);
    ScanAppend(Init, a, [h2]);
    assert [h1, h2][1..] == [h2] && [h2][1..] == [];
    var s1 := Step(st, h1);
    assert s1 == SegState(true, Lower(h1.text), [h1.text], Flush(st));
    assert Flush(s1) == Flush(st);
  }

  // ---------------------------------------------------------------------------
  // Keys and values of the result
  // ---------------------------------------------------------------------------

  /** The first line of `v`, up to the first `"\n"` of the join, lower-cases to `key`. */
  ghost predicate HeadedBy(v: string, key: string) {
    exists n :: 0 <= n <= |v| && (n == |v| || v[n] == '\n') && Lower(v[..n]) == key
  }

  /** What every entry of the map satisfies, given the heading labels seen. */
  ghost predicate EntryOk(e: Entry, labels: seq<string>) {
    && e.key != "legal context" && e.key != "costs"
    && (e.key == "intro" || e.key in labels)
    && Lower(e.value) != e.key
    && (e.key == "intro" || HeadedBy(e.value, e.key))
  }

  ghost predicate SegInv(st: SegState, labels: seq<string>) {
    && Distinct(st.sections)
    && (forall i :: 0 <= i < |st.sections| ==> EntryOk(st.sections[i], labels))
    && st.heading != "costs"
    && (st.heading == "intro" || st.heading in labels)
    && (!st.judgmentFound ==> st.heading == "intro")
    && (st.judgmentFound ==> |st.buffer| > 0 && Lower(st.buffer[0]) == st.heading)
  }

  /** A joined buffer that passed the flush test is not, up to case, its own
      label: a one-line buffer fails the test, and a longer one is longer than
      its first line and holds a `"\n"`, which `"intro"` does not. */
  lemma JoinNotLabel(heading: string, buffer: seq<string>)
    requires Keeps(heading, buffer)
    requires heading == "intro" || Lower(buffer[0]) == heading
    ensures Lower(JoinSep("\n", buffer)) != heading
  {
    var v := JoinSep("\n", buffer);
    if |buffer| > 1 {
      assert v == buffer[0] + "\n" + JoinSep("\n", buffer[1..]);
      var n := |buffer[0]|;
      assert Lower(v)[n] == '\n';
      if Lower(buffer[0]) != heading {
        assert forall k :: 0 <= k < |heading| ==> heading[k] != '\n';
      }
    }
  }

  /** The joined buffer starts with its first line. */
  lemma JoinHeadedBy(buffer: seq<string>)
    requires |buffer| > 0
    ensures HeadedBy(JoinSep("\n", buffer), Lower(buffer[0]))
  {
    var v := JoinSep("\n", buffer);
    var n := |buffer[0]|;
    if |buffer| > 1 {
      assert v == buffer[0] + "\n" + JoinSep("\n", buffer[1..]);
    }
    assert v[..n] == buffer[0];
  }

  lemma FlushKeepsInv(st: SegState, labels: seq<string>)
    requires SegInv(st, labels)
    ensures Distinct(Flush(st))
    ensures forall i :: 0 <= i < |Flush(st)| ==> EntryOk(Flush(st)[i], labels)
  {
    if Keeps(st.heading, st.buffer) {
      var v := JoinSep("\n", st.buffer);
      JoinNotLabel(st.heading, st.buffer);
      if st.heading != "intro" {
        JoinHeadedBy(st.buffer);
      }
      assert EntryOk(Entry(st.heading, v), labels);
      PutDistinct(st.sections, st.heading, v);
      PutKeeps(st.sections, st.heading, v, e => EntryOk(e, labels));
    }
  }

  /** The label a step adds to those met once the gate is open. */
  function Added(st: SegState, q: Paragraph): seq<string> {
    if q.isHeading && Step(st, q).judgmentFound then [Lower(q.text)] else []
  }

  lemma StepKeepsInv(st: SegState, q: Paragraph, labels: seq<string>)
    requires SegInv(st, labels)
    requires !IsCosts(q)
    ensures SegInv(Step(st, q), labels + Added(st, q))
  {
    var st' := Step(st, q);
    var labels' := labels + Added(st, q);
    FlushKeepsInv(st, labels);
    forall i | 0 <= i < |st'.sections|
      ensures EntryOk(st'.sections[i], labels')
    {
      assert EntryOk(st'.sections[i], labels);
    }
    if q.isHeading && st'.judgmentFound {
      assert Lower(q.text) in labels';
    }
  }

  /** Induction over the scan for any invariant the loop body keeps, the
      labels met so far being part of it. */
  lemma {:induction false} ScanPreserves(inv: (SegState, seq<string>) -> bool, st: SegState, qs: seq<Paragraph>, labels: seq<string>)
    requires forall s: SegState, q: Paragraph, l: seq<string> :: inv(s, l) && !IsCosts(q) ==> inv(Step(s, q), l + Added(s, q))
    requires inv(st, labels)
    ensures inv(Scan(st, qs), labels + OpenLabels(st.judgmentFound, qs))
    decreases |qs|
  {
    if |qs| == 0 || IsCosts(qs[0]) {
      assert labels + OpenLabels(st.judgmentFound, qs) == labels;
    } else {
      var st' := Step(st, qs[0]);
      ScanPreserves(inv, st', qs[1..], labels + Added(st, qs[0]));
      assert labels + Added(st, qs[0]) + OpenLabels(st'.judgmentFound, qs[1..]) == labels + OpenLabels(st.judgmentFound, qs);
    }
  }

  lemma ScanKeepsInv(st: SegState, qs: seq<Paragraph>, labels: seq<string>)
    requires SegInv(st, labels)
    ensures SegInv(Scan(st, qs), labels + OpenLabels(st.judgmentFound, qs))
  {
    forall s: SegState, q: Paragraph, l: seq<string> | SegInv(s, l) && !IsCosts(q)
      ensures SegInv(Step(s, q), l + Added(s, q))
    {
      StepKeepsInv(s, q, l);
    }
    ScanPreserves((s, l) => SegInv(s, l), st, qs, labels);
  }

  /** What `split_into_sections` promises about its result, whatever the input:
      no key twice; no `"legal context"` or `"costs"` key; every key is
      `"intro"` or the lower-cased text of a heading met once the gate is open
      and before `"costs"`; no value
      is, up to case, just its own label; and every value under a heading
      label starts with a line that lower-cases to that label. */
  lemma SectionsShape(qs: seq<Paragraph>)
    ensures var m := Segment(qs);
      && Distinct(m)
      && (forall i :: 0 <= i < |m| ==> m[i].key != "legal context" && m[i].key != "costs")
      && (forall i :: 0 <= i < |m| ==> m[i].key == "intro" || m[i].key in OpenLabels(false, qs))
      && (forall i :: 0 <= i < |m| ==> Lower(m[i].value) != m[i].key)
      && (forall i :: 0 <= i < |m| ==> m[i].key == "intro" || HeadedBy(m[i].value, m[i].key))
  {
    var labels := OpenLabels(false, qs);
    ScanKeepsInv(Init, qs, []);
    assert [] + labels == labels;
    FlushKeepsInv(Scan(Init, qs), labels);
    var m := Segment(qs);
    assert forall i :: 0 <= i < |m| ==> EntryOk(m[i], labels);
  }

  /** The same, for the `<p>` elements of a judgment. */
  lemma SplitIntoSectionsShape(ps: seq<Paragraph>)
    ensures var m := SplitIntoSections(ps);
      && Distinct(m)
      && (forall i :: 0 <= i < |m| ==> m[i].key != "legal context" && m[i].key != "costs")
      && (forall i :: 0 <= i < |m| ==> m[i].key == "intro" || m[i].key in OpenLabels(false, Prepare(ps)))
  {
    SectionsShape(Prepare(ps));
  }
}
