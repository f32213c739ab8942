/**
 * Splitting evidence text into passages (packages/agent-tools/src/evidence.ts:651-709).
 * A text is a sequence of UTF-16 code units, so offsets are the source's offsets.
 */
module Passages {

  type Unit = n: int | 0 <= n < 0x1_0000

  const MAX_PASSAGE_CHARS: nat := 1200
  const MIN_PASSAGE_BREAK_CHARS: nat := 600
  const NEWLINE: Unit := 10
  const SPACE: Unit := 32
  const FULL_STOP: Unit := 46

  /** What `\s` matches. */
  predicate IsSpace(u: Unit) {
    || 9 <= u <= 13 || u == 32 || u == 0xA0 || u == 0x1680 || 0x2000 <= u <= 0x200A
    || u == 0x2028 || u == 0x2029 || u == 0x202F || u == 0x205F || u == 0x3000 || u == 0xFEFF
  }

  datatype Passage = Passage(quote: seq<Unit>, start: nat, end: nat, startLine: nat, endLine: nat)

  // ----- where a passage ends ---------------------------------------------

  predicate MarkerAt(text: seq<Unit>, marker: seq<Unit>, i: int) {
    0 <= i && i + |marker| <= |text| && text[i..i + |marker|] == marker
  }

  /** `text.lastIndexOf(marker, from)` */
  function LastIndexOf(text: seq<Unit>, marker: seq<Unit>, from: int): (r: int)
    requires from >= -1
    ensures -1 <= r <= from
    ensures r >= 0 ==> MarkerAt(text, marker, r)
    ensures forall i | r < i <= from :: !MarkerAt(text, marker, i)
    decreases from + 1
  {
    if from < 0 then -1 else if MarkerAt(text, marker, from) then from else LastIndexOf(text, marker, from - 1)
  }

  /** Paragraph break, line break, end of sentence, space: in this order of preference. */
  const MARKERS: seq<seq<Unit>> := [[NEWLINE, NEWLINE], [NEWLINE], [FULL_STOP, SPACE], [SPACE]]

  /** The marker's last place in the second half of the allowed length, if it has one. */
  predicate Breaks(text: seq<Unit>, start: nat, hardEnd: nat, marker: seq<Unit>) {
    LastIndexOf(text, marker, hardEnd) >= start + MIN_PASSAGE_BREAK_CHARS
  }

  /** A sentence keeps its full stop. */
  function BreakAt(text: seq<Unit>, hardEnd: nat, marker: seq<Unit>): int {
    LastIndexOf(text, marker, hardEnd) + if marker == [FULL_STOP, SPACE] then 1 else 0
  }

  function FirstBreak(text: seq<Unit>, start: nat, hardEnd: nat, markers: seq<seq<Unit>>): int {
    if markers == [] then hardEnd
    else if Breaks(text, start, hardEnd, markers[0]) then BreakAt(text, hardEnd, markers[0])
    else FirstBreak(text, start, hardEnd, markers[1..])
  }

  method PreferredBreak(text: seq<Unit>, start: nat, hardEnd: nat) returns (end: int)
    ensures end == FirstBreak(text, start, hardEnd, MARKERS)
  {
    for k := 0 to |MARKERS|
      invariant FirstBreak(text, start, hardEnd, MARKERS[k..]) == FirstBreak(text, start, hardEnd, MARKERS)
    {
      assert MARKERS[k..][0] == MARKERS[k] && MARKERS[k..][1..] == MARKERS[k + 1..];
      var found := LastIndexOf(text, MARKERS[k], hardEnd);
      if found >= start + MIN_PASSAGE_BREAK_CHARS {
        return found + if MARKERS[k] == [FULL_STOP, SPACE] then 1 else 0;
      }
    }
    return hardEnd;
  }

  /** The break is in range; it passes the hard end, by one, only for a sentence ending exactly there. */
  lemma {:induction false} BreakBounds(text: seq<Unit>, start: nat, hardEnd: nat, markers: seq<seq<Unit>>)
    requires start + MIN_PASSAGE_BREAK_CHARS <= hardEnd < |text| && forall m | m in markers :: m in MARKERS
    ensures var end := FirstBreak(text, start, hardEnd, markers);
      && start + MIN_PASSAGE_BREAK_CHARS <= end <= hardEnd + 1 && end <= |text|
      && (end == hardEnd + 1 ==> MarkerAt(text, [FULL_STOP, SPACE], hardEnd))
  {
    if markers != [] && !Breaks(text, start, hardEnd, markers[0]) {
      BreakBounds(text, start, hardEnd, markers[1..]);
    }
  }

  /** A passage that starts at `start` stops here, before trailing space is cut off. */
  function RawEnd(text: seq<Unit>, start: nat): int {
    if start + MAX_PASSAGE_CHARS < |text| then FirstBreak(text, start, start + MAX_PASSAGE_CHARS, MARKERS) else |text|
  }

  /** The end without trailing space. */
  function TrimmedEnd(text: seq<Unit>, start: nat, end: nat): (r: nat)
    requires start <= end <= |text|
    ensures start <= r <= end
    decreases end
  {
    if end > start && IsSpace(text[end - 1]) then TrimmedEnd(text, start, end - 1) else end
  }

  lemma RawEndBounds(text: seq<Unit>, start: nat)
    requires start < |text|
    ensures start < RawEnd(text, start) <= |text| && RawEnd(text, start) <= start + MAX_PASSAGE_CHARS + 1
    ensures RawEnd(text, start) == start + MAX_PASSAGE_CHARS + 1 ==>
      MarkerAt(text, [FULL_STOP, SPACE], start + MAX_PASSAGE_CHARS)
  {
    if start + MAX_PASSAGE_CHARS < |text| {
      BreakBounds(text, start, start + MAX_PASSAGE_CHARS, MARKERS);
    }
  }

  lemma {:induction false} TrimmedIsTight(text: seq<Unit>, start: nat, end: nat)
    requires start < end <= |text| && !IsSpace(text[start])
    ensures var r := TrimmedEnd(text, start, end);
      start < r && !IsSpace(text[r - 1]) && forall i | r <= i < end :: IsSpace(text[i])
    decreases end
  {
    if IsSpace(text[end - 1]) {
      TrimmedIsTight(text, start, end - 1);
    }
  }

  // ----- lines ------------------------------------------------------------

  function Newlines(text: seq<Unit>): nat {
    if text == [] then 0 else Newlines(text[..|text| - 1]) + if text[|text| - 1] == NEWLINE then 1 else 0
  }

  lemma {:induction false} NewlinesConcat(a: seq<Unit>, b: seq<Unit>)
    ensures Newlines(a + b) == Newlines(a) + Newlines(b)
  {
    if b == [] {
      assert a + b == a;
    } else {
      assert (a + b)[..|a + b| - 1] == a + b[..|b| - 1];
      NewlinesConcat(a, b[..|b| - 1]);
    }
  }

  method CountNewlines(text: seq<Unit>) returns (count: nat)
    ensures count == Newlines(text)
  {
    count := 0;
    for k := 0 to |text|
      invariant count == Newlines(text[..k])
    {
      assert text[..k + 1][..k] == text[..k];
      if text[k] == NEWLINE {
        count := count + 1;
      }
    }
    assert text[..|text|] == text;
  }

  // ----- passages ---------------------------------------------------------

  /** The passage is the text at its offsets, starts and ends on non-space, and knows its lines. */
  ghost predicate Faithful(text: seq<Unit>, p: Passage) {
    && p.start < p.end <= |text|
    && p.quote == text[p.start..p.end]
    && !IsSpace(text[p.start]) && !IsSpace(text[p.end - 1])
    && p.startLine == 1 + Newlines(text[..p.start])
    && p.endLine == 1 + Newlines(text[..p.end])
  }

  /** It ends where the preferred break says, and only a sentence can make it one unit longer than the limit. */
  ghost predicate WellCut(text: seq<Unit>, p: Passage) {
    && p.start < p.end <= |text|
    && p.start < RawEnd(text, p.start) <= |text|
    && p.end == TrimmedEnd(text, p.start, RawEnd(text, p.start))
    && p.end - p.start <= MAX_PASSAGE_CHARS + 1
    && (p.end - p.start == MAX_PASSAGE_CHARS + 1 ==> MarkerAt(text, [FULL_STOP, SPACE], p.end - 1))
  }

  ghost predicate Ordered(ps: seq<Passage>) {
    forall i, j | 0 <= i < j < |ps| :: ps[i].end <= ps[j].start
  }

  predicate Covered(ps: seq<Passage>, k: nat) {
    exists i | 0 <= i < |ps| :: ps[i].start <= k < ps[i].end
  }

  /** Everything before `upTo` that no passage covers is space. */
  ghost predicate Covers(text: seq<Unit>, ps: seq<Passage>, upTo: nat)
    requires upTo <= |text|
  {
    forall k: nat | k < upTo && !IsSpace(text[k]) :: Covered(ps, k)
  }

  /** Ordered, disjoint passages, each faithful and well cut, that leave only space uncovered. */
  ghost predicate IsSplit(text: seq<Unit>, ps: seq<Passage>) {
    && (forall i | 0 <= i < |ps| :: Faithful(text, ps[i]) && WellCut(text, ps[i]))
    && Ordered(ps) && Covers(text, ps, |text|)
  }

  // ----- a passage is fixed by its start ------------------------------------

  /** The only passage that can start here. */
  function PassageFrom(text: seq<Unit>, start: nat): Passage
    requires start < |text|
  {
    RawEndBounds(text, start);
    var end := TrimmedEnd(text, start, RawEnd(text, start));
    Passage(text[start..end], start, end, 1 + Newlines(text[..start]), 1 + Newlines(text[..end]))
  }

  lemma PassageIsFixed(text: seq<Unit>, p: Passage)
    requires Faithful(text, p) && WellCut(text, p)
    ensures p == PassageFrom(text, p.start)
  {
  }

  lemma FixedIsFaithful(text: seq<Unit>, start: nat)
    requires start < |text| && !IsSpace(text[start])
    ensures Faithful(text, PassageFrom(text, start)) && WellCut(text, PassageFrom(text, start))
  {
    RawEndBounds(text, start);
    TrimmedIsTight(text, start, RawEnd(text, start));
  }

  function Maker(text: seq<Unit>): nat -> Passage {
    (start: nat) => if start < |text| then PassageFrom(text, start) else Passage([], 0, 0, 0, 0)
  }

  /** Where each passage starts says what it is. */
  ghost predicate Made(make: nat -> Passage, ps: seq<Passage>) {
    forall i | 0 <= i < |ps| :: ps[i] == make(ps[i].start)
  }

  ghost predicate SolidStarts(text: seq<Unit>, ps: seq<Passage>) {
    forall i | 0 <= i < |ps| :: ps[i].start < |text| && !IsSpace(text[ps[i].start])
  }

  ghost predicate NonEmpty(ps: seq<Passage>) {
    forall i | 0 <= i < |ps| :: ps[i].start < ps[i].end
  }

  /** The passages split everything before `upTo`, each as `make` says. */
  ghost predicate Tiles(make: nat -> Passage, text: seq<Unit>, ps: seq<Passage>, upTo: nat) {
    && upTo <= |text| && (forall i | 0 <= i < |ps| :: ps[i].end <= upTo)
    && Ordered(ps) && NonEmpty(ps) && Covers(text, ps, upTo) && SolidStarts(text, ps) && Made(make, ps)
  }

  lemma SplitTiles(text: seq<Unit>, ps: seq<Passage>)
    requires IsSplit(text, ps)
    ensures Tiles(Maker(text), text, ps, |text|)
  {
    forall i | 0 <= i < |ps| ensures ps[i] == Maker(text)(ps[i].start) {
      PassageIsFixed(text, ps[i]);
    }
  }

  lemma TilesSplit(text: seq<Unit>, ps: seq<Passage>)
    requires Tiles(Maker(text), text, ps, |text|)
    ensures IsSplit(text, ps)
  {
    forall i | 0 <= i < |ps| ensures Faithful(text, ps[i]) && WellCut(text, ps[i]) {
      FixedIsFaithful(text, ps[i].start);
    }
  }

  // ----- the one passage that is too long ------------------------------------

  /** No paragraph or line break is late enough, and a sentence ends exactly at the limit. */
  predicate SentenceAtLimit(text: seq<Unit>, start: nat) {
    var hardEnd := start + MAX_PASSAGE_CHARS;
    && hardEnd < |text|
    && !Breaks(text, start, hardEnd, [NEWLINE, NEWLINE]) && !Breaks(text, start, hardEnd, [NEWLINE])
    && MarkerAt(text, [FULL_STOP, SPACE], hardEnd)
  }

  lemma OneMarker(text: seq<Unit>, start: nat, hardEnd: nat, k: nat)
    requires k < |MARKERS|
    ensures FirstBreak(text, start, hardEnd, MARKERS[k..]) ==
      if Breaks(text, start, hardEnd, MARKERS[k]) then BreakAt(text, hardEnd, MARKERS[k])
      else FirstBreak(text, start, hardEnd, MARKERS[k + 1..])
  {
    assert MARKERS[k..][0] == MARKERS[k] && MARKERS[k..][1..] == MARKERS[k + 1..];
  }

  lemma MarkersInTurn(text: seq<Unit>, start: nat, hardEnd: nat)
    ensures FirstBreak(text, start, hardEnd, MARKERS) ==
      if Breaks(text, start, hardEnd, [NEWLINE, NEWLINE]) then LastIndexOf(text, [NEWLINE, NEWLINE], hardEnd)
      else if Breaks(text, start, hardEnd, [NEWLINE]) then LastIndexOf(text, [NEWLINE], hardEnd)
      else if Breaks(text, start, hardEnd, [FULL_STOP, SPACE]) then LastIndexOf(text, [FULL_STOP, SPACE], hardEnd) + 1
      else if Breaks(text, start, hardEnd, [SPACE]) then LastIndexOf(text, [SPACE], hardEnd)
      else hardEnd
  {
    var sentence := [FULL_STOP, SPACE];
    assert MARKERS[0][0] != sentence[0] && |MARKERS[1]| != |sentence| && |MARKERS[3]| != |sentence|;
    assert MARKERS[0..] == MARKERS;
    OneMarker(text, start, hardEnd, 0);
    OneMarker(text, start, hardEnd, 1);
    OneMarker(text, start, hardEnd, 2);
    OneMarker(text, start, hardEnd, 3);
    assert MARKERS[4..] == [];
  }

  /** The preferred break passes the hard end exactly when a sentence ends there and nothing goes before it. */
  lemma PastHardEndIff(text: seq<Unit>, start: nat)
    requires start + MAX_PASSAGE_CHARS < |text|
    ensures RawEnd(text, start) == start + MAX_PASSAGE_CHARS + 1 <==> SentenceAtLimit(text, start)
  {
    var hardEnd := start + MAX_PASSAGE_CHARS;
    MarkersInTurn(text, start, hardEnd);
    if SentenceAtLimit(text, start) {
      assert LastIndexOf(text, [FULL_STOP, SPACE], hardEnd) == hardEnd;
    } else if Breaks(text, start, hardEnd, [FULL_STOP, SPACE]) {
      assert LastIndexOf(text, [FULL_STOP, SPACE], hardEnd) == hardEnd ==> MarkerAt(text, [FULL_STOP, SPACE], hardEnd);
    }
  }

  /** A passage is longer than the limit, by one unit, if and only if a sentence ends exactly at the limit. */
  lemma OverlongIff(text: seq<Unit>, p: Passage)
    requires Faithful(text, p) && WellCut(text, p)
    ensures p.end - p.start == MAX_PASSAGE_CHARS + 1 <==> SentenceAtLimit(text, p.start)
  {
    var hardEnd := p.start + MAX_PASSAGE_CHARS;
    if hardEnd < |text| {
      RawEndBounds(text, p.start);
      PastHardEndIff(text, p.start);
      if SentenceAtLimit(text, p.start) {
        assert text[hardEnd] == text[hardEnd..hardEnd + 2][0] == FULL_STOP;
      }
    }
  }

  lemma MarkerStarts(text: seq<Unit>, marker: seq<Unit>, i: nat)
    requires MarkerAt(text, marker, i) && marker != []
    ensures i < |text| && text[i] == marker[0]
  {
    assert text[i] == text[i..i + |marker|][0];
  }

  lemma {:induction false} NoLateNewline(text: seq<Unit>, marker: seq<Unit>, from: int)
    requires -1 <= from && marker != [] && marker[0] == NEWLINE && NEWLINE !in text
    ensures LastIndexOf(text, marker, from) == -1
    decreases from + 1
  {
    if from >= 0 {
      NoLateNewline(text, marker, from - 1);
      if MarkerAt(text, marker, from) {
        MarkerStarts(text, marker, from);
      }
    }
  }

  lemma OneLineIsOverlong(text: seq<Unit>, start: nat)
    requires start + MAX_PASSAGE_CHARS < |text| && NEWLINE !in text && !IsSpace(text[start])
    requires MarkerAt(text, [FULL_STOP, SPACE], start + MAX_PASSAGE_CHARS)
    ensures var p := PassageFrom(text, start);
      Faithful(text, p) && WellCut(text, p) && p.end - p.start == MAX_PASSAGE_CHARS + 1
  {
    NoLateNewline(text, [NEWLINE, NEWLINE], start + MAX_PASSAGE_CHARS);
    NoLateNewline(text, [NEWLINE], start + MAX_PASSAGE_CHARS);
    FixedIsFaithful(text, start);
    OverlongIff(text, PassageFrom(text, start));
  }

  /** 1200 letters, a full stop, a space and one more letter: the first passage is 1201 units long. */
  lemma LongSentence() returns (text: seq<Unit>, p: Passage)
    ensures text == seq(1203, i => if i == 1200 then FULL_STOP else if i == 1201 then SPACE else 97)
    ensures p.start == 0 && Faithful(text, p) && WellCut(text, p) && p.end - p.start == MAX_PASSAGE_CHARS + 1
    ensures forall ps | IsSplit(text, ps) :: p in ps
  {
    text := seq(1203, i => if i == 1200 then FULL_STOP else if i == 1201 then SPACE else 97);
    var limit: nat := MAX_PASSAGE_CHARS;
    assert text[limit..limit + 2] == [FULL_STOP, SPACE];
    OneLineIsOverlong(text, 0);
    p := PassageFrom(text, 0);
    forall ps | IsSplit(text, ps) ensures p in ps {
      StartsSplit(text, ps);
    }
  }

  /** A text that starts with something has its first passage there. */
  lemma StartsSplit(text: seq<Unit>, ps: seq<Passage>)
    requires IsSplit(text, ps) && text != [] && !IsSpace(text[0])
    ensures PassageFrom(text, 0) in ps
  {
    SplitTiles(text, ps);
    TilesStart(Maker(text), text, ps);
  }

  lemma TilesStart(make: nat -> Passage, text: seq<Unit>, ps: seq<Passage>)
    requires Tiles(make, text, ps, |text|) && text != [] && !IsSpace(text[0])
    ensures make(0) in ps
  {
    assert Covered(ps, 0);
    var i :| 0 <= i < |ps| && ps[i].start <= 0 < ps[i].end;
    assert ps[i] == make(0);
  }

  // ----- the loop -----------------------------------------------------------

  /**
   * Exact on every text: the passages are ordered, disjoint, faithful and well cut, and leave
   * only space uncovered.
   */
  method SplitPassages(text: seq<Unit>) returns (passages: seq<Passage>)
    ensures IsSplit(text, passages)
    ensures forall p | p in passages ::
      p.end - p.start <= MAX_PASSAGE_CHARS + 1
      && (p.end - p.start == MAX_PASSAGE_CHARS + 1 <==> SentenceAtLimit(text, p.start))
  {
    passages := [];
    var start: nat, currentLine: nat := 0, 1;
    while start < |text|
      invariant Tiles(Maker(text), text, passages, start) && currentLine == 1 + Newlines(text[..start])
    {
      ghost var from := start;
      start, currentLine := SkipSpace(text, start, currentLine);
      TilesPastSpace(Maker(text), text, passages, from, start);
      if start >= |text| {
        break;
      }
      var end := FindEnd(text, start);
      var quote := text[start..end];
      var startLine := currentLine;
      var newlines := CountNewlines(quote);
      var endLine := startLine + newlines;
      LinesAdd(text, start, end);
      var passage := Passage(quote, start, end, startLine, endLine);
      TilesOneMore(Maker(text), text, passages, passage);
      passages := passages + [passage];
      currentLine := endLine;
      start := end;
    }
    TilesSplit(text, passages);
    SplitLengths(text, passages);
  }

  lemma SplitLengths(text: seq<Unit>, ps: seq<Passage>)
    requires IsSplit(text, ps)
    ensures forall p | p in ps ::
      p.end - p.start <= MAX_PASSAGE_CHARS + 1
      && (p.end - p.start == MAX_PASSAGE_CHARS + 1 <==> SentenceAtLimit(text, p.start))
  {
    forall i | 0 <= i < |ps| ensures ps[i].end - ps[i].start <= MAX_PASSAGE_CHARS + 1
      && (ps[i].end - ps[i].start == MAX_PASSAGE_CHARS + 1 <==> SentenceAtLimit(text, ps[i].start))
    {
      OverlongIff(text, ps[i]);
    }
  }

  method SkipSpace(text: seq<Unit>, from: nat, line: nat) returns (start: nat, currentLine: nat)
    requires from <= |text| && line == 1 + Newlines(text[..from])
    ensures from <= start <= |text| && (forall k | from <= k < start :: IsSpace(text[k]))
    ensures start < |text| ==> !IsSpace(text[start])
    ensures currentLine == 1 + Newlines(text[..start])
  {
    start, currentLine := from, line;
    while start < |text| && IsSpace(text[start])
      invariant from <= start <= |text| && (forall k | from <= k < start :: IsSpace(text[k]))
      invariant currentLine == 1 + Newlines(text[..start])
    {
      NextLine(text, start);
      if text[start] == NEWLINE {
        currentLine := currentLine + 1;
      }
      start := start + 1;
    }
  }

  lemma TilesPastSpace(make: nat -> Passage, text: seq<Unit>, ps: seq<Passage>, from: nat, start: nat)
    requires Tiles(make, text, ps, from) && from <= start <= |text| && forall k | from <= k < start :: IsSpace(text[k])
    ensures Tiles(make, text, ps, start)
  {
  }

  lemma NextLine(text: seq<Unit>, start: nat)
    requires start < |text|
    ensures Newlines(text[..start + 1]) == Newlines(text[..start]) + if text[start] == NEWLINE then 1 else 0
  {
    assert text[..start + 1][..start] == text[..start];
  }

  method FindEnd(text: seq<Unit>, start: nat) returns (end: nat)
    requires start < |text| && !IsSpace(text[start])
    ensures start < end <= |text| && Maker(text)(start).end == end
  {
    RawEndBounds(text, start);
    var hardEnd := if start + MAX_PASSAGE_CHARS < |text| then start + MAX_PASSAGE_CHARS else |text|;
    end := hardEnd;
    if hardEnd < |text| {
      end := PreferredBreak(text, start, hardEnd);
    }
    assert end == RawEnd(text, start);
    ghost var raw := end;
    TrimmedIsTight(text, start, raw);
    while end > start && IsSpace(text[end - 1])
      invariant start <= end <= raw && TrimmedEnd(text, start, end) == TrimmedEnd(text, start, raw)
    {
      end := end - 1;
    }
    if end <= start {
      // The source falls back to the hard end here; a passage starts on non-space, so it never does.
      assert false;
    }
  }

  lemma LinesAdd(text: seq<Unit>, start: nat, end: nat)
    requires start <= end <= |text|
    ensures Newlines(text[..end]) == Newlines(text[..start]) + Newlines(text[start..end])
  {
    assert text[..end] == text[..start] + text[start..end];
    NewlinesConcat(text[..start], text[start..end]);
  }

  lemma TilesOneMore(make: nat -> Passage, text: seq<Unit>, ps: seq<Passage>, p: Passage)
    requires Tiles(make, text, ps, p.start) && p.start < p.end <= |text| && !IsSpace(text[p.start])
    requires p == make(p.start)
    ensures Tiles(make, text, ps + [p], p.end)
  {
    CoversOneMore(text, ps, p, p.start);
  }

  lemma CoversOneMore(text: seq<Unit>, ps: seq<Passage>, p: Passage, start: nat)
    requires start <= |text| && p.start == start < p.end <= |text| && Covers(text, ps, start)
    ensures Covers(text, ps + [p], p.end)
  {
    var more := ps + [p];
    forall k: nat | k < p.end && !IsSpace(text[k]) ensures Covered(more, k) {
      if k < start {
        var i :| 0 <= i < |ps| && ps[i].start <= k < ps[i].end;
        assert more[i] == ps[i];
      } else {
        assert more[|ps|] == p;
      }
    }
  }

  // ----- a text can be split in one way --------------------------------------

  /** The first passage after the ones that end by `at` starts no later than a non-space at `at`. */
  lemma StartsFirst(text: seq<Unit>, qs: seq<Passage>, k: nat, at: nat)
    requires Ordered(qs) && NonEmpty(qs) && Covers(text, qs, |text|)
    requires at < |text| && !IsSpace(text[at])
    requires k <= |qs| && forall j | 0 <= j < k :: qs[j].end <= at
    ensures k < |qs| && qs[k].start <= at
  {
    assert Covered(qs, at);
    var i :| 0 <= i < |qs| && qs[i].start <= at < qs[i].end;
    assert i == k || qs[k].end <= qs[i].start;
  }

  lemma NextStartsFirst(text: seq<Unit>, ps: seq<Passage>, qs: seq<Passage>, k: nat)
    requires Ordered(ps) && Ordered(qs) && NonEmpty(qs) && Covers(text, qs, |text|) && SolidStarts(text, ps)
    requires k < |ps| && k <= |qs| && ps[..k] == qs[..k]
    ensures k < |qs| && qs[k].start <= ps[k].start
  {
    forall j | 0 <= j < k ensures qs[j].end <= ps[k].start {
      assert qs[j] == qs[..k][j] == ps[..k][j] == ps[j];
    }
    StartsFirst(text, qs, k, ps[k].start);
  }

  lemma NextAgrees(make: nat -> Passage, text: seq<Unit>, ps: seq<Passage>, qs: seq<Passage>, k: nat)
    requires Tiles(make, text, ps, |text|) && Tiles(make, text, qs, |text|)
    requires k < |ps| && k <= |qs| && ps[..k] == qs[..k]
    ensures k < |qs| && ps[k] == qs[k]
  {
    NextStartsFirst(text, ps, qs, k);
    NextStartsFirst(text, qs, ps, k);
  }

  lemma PrefixGrows(ps: seq<Passage>, qs: seq<Passage>, k: nat)
    requires k < |ps| && k < |qs| && ps[..k] == qs[..k] && ps[k] == qs[k]
    ensures ps[..k + 1] == qs[..k + 1]
  {
    assert ps[..k + 1] == ps[..k] + [ps[k]] && qs[..k + 1] == qs[..k] + [qs[k]];
  }

  lemma {:induction false} SplitsAgree(make: nat -> Passage, text: seq<Unit>, ps: seq<Passage>, qs: seq<Passage>,
      k: nat)
    requires Tiles(make, text, ps, |text|) && Tiles(make, text, qs, |text|) && k <= |ps|
    ensures k <= |qs| && ps[..k] == qs[..k]
  {
    if k > 0 {
      SplitsAgree(make, text, ps, qs, k - 1);
      NextAgrees(make, text, ps, qs, k - 1);
      PrefixGrows(ps, qs, k - 1);
    }
  }

  /** The description is complete: it leaves a text exactly one way to be split. */
  lemma SplitIsUnique(text: seq<Unit>, ps: seq<Passage>, qs: seq<Passage>)
    requires IsSplit(text, ps) && IsSplit(text, qs)
    ensures ps == qs
  {
    SplitTiles(text, ps);
    SplitTiles(text, qs);
    SplitsAgree(Maker(text), text, ps, qs, |ps|);
    SplitsAgree(Maker(text), text, qs, ps, |qs|);
    assert ps[..|ps|] == ps && qs[..|qs|] == qs;
  }
}
