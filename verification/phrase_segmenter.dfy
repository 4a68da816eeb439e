/** `split_into_sections` of app.py (lines 57-79): the text-driven segmenter.

    The text is first cut by `re.split` on the heading phrases; that split,
    and the `re.match` heading test applied to each stripped part, are not
    modelled: the parts are the input `parts` and the test is the parameter
    `isHeading`. The fold strips each part, skips the blank ones, switches the
    current label on a heading (flushing a non-empty buffer first), and
    buffers everything else. A flushed section is the `"\n"`-join of its
    buffered parts, stripped once more. */
module PhraseSegmenter {
  import opened Text
  import opened SectionMap

  /** The label of everything before the first heading. */
  const Intro := "Header/Intro"

  datatype PhraseState = PhraseState(heading: string, buffer: seq<string>, sections: seq<Entry>)

  const Init := PhraseState(Intro, [], [])

  /** `"\n".join(buffer).strip()`. */
  function SectionText(buffer: seq<string>): string {
    Strip(JoinSep("\n", buffer))
  }

  /** `if buffer: sections[current_heading] = ...`. */
  function Flush(st: PhraseState): seq<Entry> {
    if |st.buffer| > 0 then Put(st.sections, st.heading, SectionText(st.buffer)) else st.sections
  }

  /** The loop body for a part whose stripped text `clean` is not empty. */
  function Absorb(isHeading: string -> bool, st: PhraseState, clean: string): PhraseState {
    if isHeading(clean) then PhraseState(clean, [], Flush(st))
    else PhraseState(st.heading, st.buffer + [clean], st.sections)
  }

  /** The loop body: strip, skip if blank, absorb otherwise. */
  function Step(isHeading: string -> bool, st: PhraseState, part: string): PhraseState {
    var clean := Strip(part);
    if clean == "" then st else Absorb(isHeading, st, clean)
  }

  function Scan(isHeading: string -> bool, st: PhraseState, parts: seq<string>): PhraseState
    decreases |parts|
  {
    if |parts| == 0 then st else Scan(isHeading, Step(isHeading, st, parts[0]), parts[1..])
  }

  /** The loop and the final flush. */
  function SplitIntoSections(isHeading: string -> bool, parts: seq<string>): seq<Entry> {
    Flush(Scan(isHeading, Init, parts))
  }

  // ---------------------------------------------------------------------------
  // Blank parts and adjacent headings
  // ---------------------------------------------------------------------------

  lemma {:induction false} ScanAppend(isHeading: string -> bool, st: PhraseState, a: seq<string>, b: seq<string>)
    ensures Scan(isHeading, st, a + b) == Scan(isHeading, Scan(isHeading, st, a), b)
    decreases |a|
  {
    if |a| == 0 {
      assert a + b == b;
    } else {
      assert (a + b)[0] == a[0];
      assert (a + b)[1..] == a[1..] + b;
      ScanAppend(isHeading, Step(isHeading, st, a[0]), a[1..], b);
    }
  }

  /** Scanning `a`, then `mid`, then `b`, in one go. */
  lemma ScanThree(isHeading: string -> bool, a: seq<string>, mid: seq<string>, b: seq<string>)
    ensures Scan(isHeading, Init, a + mid + b) == Scan(isHeading, Scan(isHeading, Scan(isHeading, Init, a), mid), b)
  {
    ScanAppend(isHeading, Init, a + mid, b);
    ScanAppend(isHeading, Init, a, mid);
  }

  /** A part that is blank once stripped changes nothing. */
  lemma BlankPartIgnored(isHeading: string -> bool, a: seq<string>, blank: string, b: seq<string>)
    requires IsBlank(blank)
    ensures SplitIntoSections(isHeading, a + [blank] + b) == SplitIntoSections(isHeading, a + b)
  {
    StripBlank(blank);
    ScanThree(isHeading, a, [blank], b);
    ScanAppend(isHeading, Init, a, b);
    assert [blank][1..] == [];
  }

  /** A heading followed directly by another heading leaves no entry of its
      own: the result is as if only the second one were there. */
  lemma AdjacentHeadings(isHeading: string -> bool, a: seq<string>, h1: string, h2: string, b: seq<string>)
    requires Strip(h1) != "" && isHeading(Strip(h1))
    requires Strip(h2) != "" && isHeading(Strip(h2))
    ensures SplitIntoSections(isHeading, a + [h1, h2] + b) == SplitIntoSections(isHeading, a + [h2] + b)
  {
    ScanThree(isHeading, a, [h1, h2], b);
    ScanThree(isHeading, a, [h2], b);
    assert [h1, h2][1..] == [h2];
    assert [h2][1..] == [];
  }

  // ---------------------------------------------------------------------------
  // A reference definition by runs
  // ---------------------------------------------------------------------------

  /** The non-blank parts, stripped, in order. */
  function Cleaned(parts: seq<string>): (cs: seq<string>)
    ensures forall i :: 0 <= i < |cs| ==> cs[i] != "" && Strip(cs[i]) == cs[i]
  {
    if |parts| == 0 then []
    else
      StripIdempotent(parts[0]);
      (if Strip(parts[0]) == "" then [] else [Strip(parts[0])]) + Cleaned(parts[1..])
  }

  /** The longest run at the front of `cs` with no heading in it. */
  function Lead(isHeading: string -> bool, cs: seq<string>): (run: seq<string>)
    ensures |run| <= |cs| && run == cs[..|run|]
    ensures forall i :: 0 <= i < |run| ==> !isHeading(run[i])
    ensures |run| < |cs| ==> isHeading(cs[|run|])
  {
    if |cs| == 0 || isHeading(cs[0]) then []
    else
      var rest := Lead(isHeading, cs[1..]);
      assert [cs[0]] + rest == cs[..1 + |rest|];
      [cs[0]] + rest
  }

  /** The sections, run by run: the parts `pending` already collected under
      `heading`, extended by the non-heading run at the front of `cs`, form
      one section if non-empty; the heading that ends the run starts the
      next. */
  function Sectioned(isHeading: string -> bool, heading: string, pending: seq<string>, cs: seq<string>, m: seq<Entry>): seq<Entry>
    decreases |cs|
  {
    var run := Lead(isHeading, cs);
    var body := pending + run;
    var m' := if |body| > 0 then Put(m, heading, SectionText(body)) else m;
    if |run| == |cs| then m'
    else Sectioned(isHeading, cs[|run|], [], cs[|run| + 1..], m')
  }

  /** `Absorb` over already-cleaned parts. */
  function AbsorbAll(isHeading: string -> bool, st: PhraseState, cs: seq<string>): PhraseState
    decreases |cs|
  {
    if |cs| == 0 then st else AbsorbAll(isHeading, Absorb(isHeading, st, cs[0]), cs[1..])
  }

  /** Scanning the raw parts is absorbing the cleaned ones. */
  lemma {:induction false} ScanCleaned(isHeading: string -> bool, st: PhraseState, parts: seq<string>)
    ensures Scan(isHeading, st, parts) == AbsorbAll(isHeading, st, Cleaned(parts))
    decreases |parts|
  {
    if |parts| > 0 {
      ScanCleaned(isHeading, Step(isHeading, st, parts[0]), parts[1..]);
      var rest := Cleaned(parts[1..]);
      if Strip(parts[0]) != "" {
        var cs := [Strip(parts[0])] + rest;
        assert Cleaned(parts) == cs;
        assert cs[0] == Strip(parts[0]) && cs[1..] == rest;
        assert Step(isHeading, st, parts[0]) == Absorb(isHeading, st, cs[0]);
      } else {
        assert Cleaned(parts) == [] + rest == rest;
        assert Step(isHeading, st, parts[0]) == st;
        assert Scan(isHeading, st, parts) == Scan(isHeading, st, parts[1..]);
      }
    }
  }

  /** With nothing left, the run-by-run definition is the final flush. */
  lemma SectionedEnd(isHeading: string -> bool, heading: string, pending: seq<string>, m: seq<Entry>)
    ensures Sectioned(isHeading, heading, pending, [], m) == Flush(PhraseState(heading, pending, m))
  {
    assert pending + [] == pending;
  }

  /** A heading first: the pending run is flushed and the heading starts an
      empty one. */
  lemma SectionedHeading(isHeading: string -> bool, heading: string, pending: seq<string>, cs: seq<string>, m: seq<Entry>)
    requires |cs| > 0 && isHeading(cs[0])
    ensures Sectioned(isHeading, heading, pending, cs, m)
         == Sectioned(isHeading, cs[0], [], cs[1..], Flush(PhraseState(heading, pending, m)))
  {
    assert Lead(isHeading, cs) == [];
    assert pending + [] == pending;
  }

  /** A non-heading first: it joins the pending run. */
  lemma SectionedBody(isHeading: string -> bool, heading: string, pending: seq<string>, cs: seq<string>, m: seq<Entry>)
    requires |cs| > 0 && !isHeading(cs[0])
    ensures Sectioned(isHeading, heading, pending, cs, m)
         == Sectioned(isHeading, heading, pending + [cs[0]], cs[1..], m)
  {
    var run := Lead(isHeading, cs);
    var tail := Lead(isHeading, cs[1..]);
    assert run == [cs[0]] + tail;
    assert pending + run == (pending + [cs[0]]) + tail;
    assert |run| == |cs| <==> |tail| == |cs[1..]|;
    if |run| < |cs| {
      assert cs[|run|] == cs[1..][|tail|];
      assert cs[|run| + 1..] == cs[1..][|tail| + 1..];
    }
  }

  /** The fold, flushed at the end, is the run-by-run definition. */
  lemma {:induction false} AbsorbAllSectioned(isHeading: string -> bool, heading: string, pending: seq<string>, cs: seq<string>, m: seq<Entry>)
    ensures Flush(AbsorbAll(isHeading, PhraseState(heading, pending, m), cs)) == Sectioned(isHeading, heading, pending, cs, m)
    decreases |cs|
  {
    var st := PhraseState(heading, pending, m);
    if |cs| == 0 {
      SectionedEnd(isHeading, heading, pending, m);
    } else if isHeading(cs[0]) {
      AbsorbAllSectioned(isHeading, cs[0], [], cs[1..], Flush(st));
      SectionedHeading(isHeading, heading, pending, cs, m);
    } else {
      AbsorbAllSectioned(isHeading, heading, pending + [cs[0]], cs[1..], m);
      SectionedBody(isHeading, heading, pending, cs, m);
    }
  }

  /** app.py's segmenter, stated without the fold: each heading part (after
      stripping) starts a run of the non-heading parts that follow it, the
      parts before the first heading form a run under `"Header/Intro"`, and
      every non-empty run is written to the dict under its heading. */
  lemma SplitAsRuns(isHeading: string -> bool, parts: seq<string>)
    ensures SplitIntoSections(isHeading, parts) == Sectioned(isHeading, Intro, [], Cleaned(parts), [])
  {
    ScanCleaned(isHeading, Init, parts);
    AbsorbAllSectioned(isHeading, Intro, [], Cleaned(parts), []);
  }

  // ---------------------------------------------------------------------------
  // Keys and values of the result
  // ---------------------------------------------------------------------------

  /** `v` is the section text of a non-empty run of stripped, non-blank,
      non-heading parts. */
  ghost predicate BodyText(isHeading: string -> bool, v: string) {
    exists body: seq<string> ::
      && |body| > 0
      && (forall i :: 0 <= i < |body| ==> body[i] != "" && Strip(body[i]) == body[i] && !isHeading(body[i]))
      && v == SectionText(body)
  }

  ghost predicate EntryOk(isHeading: string -> bool, e: Entry, cs: seq<string>) {
    && (e.key == Intro || (e.key in cs && isHeading(e.key)))
    && BodyText(isHeading, e.value)
  }

  ghost predicate PhraseInv(isHeading: string -> bool, st: PhraseState, cs: seq<string>) {
    && Distinct(st.sections)
    && (forall i :: 0 <= i < |st.sections| ==> EntryOk(isHeading, st.sections[i], cs))
    && (st.heading == Intro || (st.heading in cs && isHeading(st.heading)))
    && (forall i :: 0 <= i < |st.buffer| ==> st.buffer[i] != "" && Strip(st.buffer[i]) == st.buffer[i] && !isHeading(st.buffer[i]))
  }

  lemma FlushKeepsInv(isHeading: string -> bool, st: PhraseState, cs: seq<string>)
    requires PhraseInv(isHeading, st, cs)
    ensures Distinct(Flush(st))
    ensures forall i :: 0 <= i < |Flush(st)| ==> EntryOk(isHeading, Flush(st)[i], cs)
  {
    if |st.buffer| > 0 {
      var v := SectionText(st.buffer);
      assert BodyText(isHeading, v);
      PutDistinct(st.sections, st.heading, v);
      PutKeeps(st.sections, st.heading, v, e => EntryOk(isHeading, e, cs));
    }
  }

  /** One cleaned part keeps the invariant. */
  lemma AbsorbKeepsInv(isHeading: string -> bool, st: PhraseState, c: string, all: seq<string>)
    requires PhraseInv(isHeading, st, all)
    requires c in all && c != "" && Strip(c) == c
    ensures PhraseInv(isHeading, Absorb(isHeading, st, c), all)
  {
    if isHeading(c) {
      FlushKeepsInv(isHeading, st, all);
    } else {
      BufferKeepsInv(isHeading, st, c, all);
    }
  }

  /** A body part joins the buffer and leaves the map alone. */
  lemma BufferKeepsInv(isHeading: string -> bool, st: PhraseState, c: string, all: seq<string>)
    requires PhraseInv(isHeading, st, all)
    requires c != "" && Strip(c) == c && !isHeading(c)
    ensures PhraseInv(isHeading, PhraseState(st.heading, st.buffer + [c], st.sections), all)
  {
    var b := st.buffer + [c];
    assert forall i :: 0 <= i < |b| ==> b[i] == if i < |st.buffer| then st.buffer[i] else c;
  }

  /** Induction over the cleaned parts for any invariant one part keeps. */
  lemma {:induction false} AbsorbAllPreserves(isHeading: string -> bool, inv: PhraseState -> bool, ok: string -> bool, st: PhraseState, cs: seq<string>)
    requires forall s: PhraseState, c: string :: inv(s) && ok(c) ==> inv(Absorb(isHeading, s, c))
    requires forall i :: 0 <= i < |cs| ==> ok(cs[i])
    requires inv(st)
    ensures inv(AbsorbAll(isHeading, st, cs))
    decreases |cs|
  {
    if |cs| > 0 {
      AbsorbAllPreserves(isHeading, inv, ok, Absorb(isHeading, st, cs[0]), cs[1..]);
    }
  }

  lemma AbsorbAllKeepsInv(isHeading: string -> bool, st: PhraseState, cs: seq<string>)
    requires PhraseInv(isHeading, st, cs)
    requires forall i :: 0 <= i < |cs| ==> cs[i] != "" && Strip(cs[i]) == cs[i]
    ensures PhraseInv(isHeading, AbsorbAll(isHeading, st, cs), cs)
  {
    var ok := c => c in cs && c != "" && Strip(c) == c;
    forall s: PhraseState, c: string | PhraseInv(isHeading, s, cs) && ok(c)
      ensures PhraseInv(isHeading, Absorb(isHeading, s, c), cs)
    {
      AbsorbKeepsInv(isHeading, s, c, cs);
    }
    AbsorbAllPreserves(isHeading, s => PhraseInv(isHeading, s, cs), ok, st, cs);
  }

  /** What app.py's `split_into_sections` promises about its result: no key
      twice; every key is `"Header/Intro"` or a stripped part that passes the
      heading test, case kept; and every value is the stripped `"\n"`-join
      of a non-empty run of stripped parts none of which is blank or a
      heading. */
  lemma SectionsShape(isHeading: string -> bool, parts: seq<string>)
    ensures var m := SplitIntoSections(isHeading, parts);
      && Distinct(m)
      && (forall i :: 0 <= i < |m| ==> m[i].key == Intro || (m[i].key in Cleaned(parts) && isHeading(m[i].key)))
      && (forall i :: 0 <= i < |m| ==> BodyText(isHeading, m[i].value))
  {
    var cs := Cleaned(parts);
    ScanCleaned(isHeading, Init, parts);
    AbsorbAllKeepsInv(isHeading, Init, cs);
    FlushKeepsInv(isHeading, AbsorbAll(isHeading, Init, cs), cs);
    var m := SplitIntoSections(isHeading, parts);
    assert forall i :: 0 <= i < |m| ==> EntryOk(isHeading, m[i], cs);
  }
}
