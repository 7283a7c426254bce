/**
 Two streaming observers of lines, one by chunk and one by byte, against one specification: a stream is its
 lines and a rest, and a line is observed when it is complete and has at most 8192 characters.
 */
module LineObservers {
  import opened Bytes

  const LF: byte := 10

  const LONGEST := 8192

  const SATURATION := 1000000

  const RETAINED := 16

  predicate NoLf(s: bytes) {
    forall i :: 0 <= i < |s| ==> s[i] != LF
  }

  // ---------- the specification ----------

  /** The complete lines of a stream, without their line feeds. */
  function Lines(s: bytes): seq<bytes>
    decreases |s|
  {
    if s == [] then []
    else if s[|s| - 1] == LF then Lines(s[..|s| - 1]) + [Rest(s[..|s| - 1])]
    else Lines(s[..|s| - 1])
  }

  /** What follows the last line feed. */
  function Rest(s: bytes): bytes
    decreases |s|
  {
    if s == [] || s[|s| - 1] == LF then [] else Rest(s[..|s| - 1]) + [s[|s| - 1]]
  }

  function Unlines(lines: seq<bytes>): bytes {
    if lines == [] then [] else Unlines(lines[..|lines| - 1]) + lines[|lines| - 1] + [LF]
  }

  lemma AppendByte(s: bytes, b: byte)
    ensures b == LF ==> Lines(s + [b]) == Lines(s) + [Rest(s)] && Rest(s + [b]) == []
    ensures b != LF ==> Lines(s + [b]) == Lines(s) && Rest(s + [b]) == Rest(s) + [b]
  {
    assert (s + [b])[..|s|] == s;
  }

  lemma {:induction false} AppendPiece(s: bytes, p: bytes)
    requires NoLf(p)
    ensures Lines(s + p) == Lines(s) && Rest(s + p) == Rest(s) + p
    decreases |p|
  {
    if p == [] {
      assert s + p == s;
    } else {
      var q := p[..|p| - 1];
      AppendPiece(s, q);
      AppendByte(s + q, p[|p| - 1]);
      assert s + p == (s + q) + [p[|p| - 1]];
      assert Rest(s) + p == (Rest(s) + q) + [p[|p| - 1]];
    }
  }

  /** Splitting and joining: the lines and the rest hold no line feed and give the stream back. */
  lemma {:induction false} SplitJoins(s: bytes)
    ensures Unlines(Lines(s)) + Rest(s) == s
    ensures NoLf(Rest(s)) && forall i :: 0 <= i < |Lines(s)| ==> NoLf(Lines(s)[i])
    decreases |s|
  {
    if s != [] {
      var front, b := s[..|s| - 1], s[|s| - 1];
      SplitJoins(front);
      assert s == front + [b];
      if b == LF {
        assert Lines(s)[..|Lines(s)| - 1] == Lines(front);
      }
    }
  }

  /** No other lines and rest give the stream. */
  lemma {:induction false} SplitIsUnique(lines: seq<bytes>, rest: bytes)
    requires NoLf(rest) && forall i :: 0 <= i < |lines| ==> NoLf(lines[i])
    ensures Lines(Unlines(lines) + rest) == lines && Rest(Unlines(lines) + rest) == rest
    decreases |lines|
  {
    AppendPiece(Unlines(lines), rest);
    if lines != [] {
      var front, last := lines[..|lines| - 1], lines[|lines| - 1];
      SplitIsUnique(front, []);
      assert Unlines(front) + [] == Unlines(front);
      AppendPiece(Unlines(front), last);
      AppendByte(Unlines(front) + last, LF);
      assert lines == front + [last];
      assert [] + last == last && [] + rest == rest;
    } else {
      assert [] + rest == rest;
    }
  }

  /** The lines that are not too long. */
  function Kept(lines: seq<bytes>): (kept: seq<bytes>)
    ensures |kept| <= |lines|
  {
    if lines == [] then []
    else Kept(lines[..|lines| - 1])
         + if |lines[|lines| - 1]| <= LONGEST then [lines[|lines| - 1]] else []
  }

  /** How many lines are too long, the unfinished one included. */
  function Oversized(s: bytes): nat {
    |Lines(s)| - |Kept(Lines(s))| + if |Rest(s)| > LONGEST then 1 else 0
  }

  lemma KeptAppend(lines: seq<bytes>, line: bytes)
    ensures Kept(lines + [line]) == Kept(lines) + if |line| <= LONGEST then [line] else []
  {
    assert (lines + [line])[..|lines|] == lines;
  }

  /** What an observer remembers of an unfinished line. */
  datatype Partial = Partial(pending: bytes, dropping: bool)

  function PartialOf(s: bytes): Partial {
    if |Rest(s)| > LONGEST then Partial([], true) else Partial(Rest(s), false)
  }

  function Observed(s: bytes): seq<bytes> {
    Kept(Lines(s))
  }

  lemma ObservedByte(s: bytes, b: byte)
    ensures b != LF ==> Observed(s + [b]) == Observed(s)
    ensures b == LF ==> Observed(s + [b]) == Observed(s) + if |Rest(s)| <= LONGEST then [Rest(s)] else []
  {
    AppendByte(s, b);
    KeptAppend(Lines(s), Rest(s));
  }

  lemma {:induction false} ObservedGrows(s: bytes, p: bytes)
    ensures Observed(s) <= Observed(s + p)
    decreases |p|
  {
    if p == [] {
      assert s + p == s;
    } else {
      var q := p[..|p| - 1];
      ObservedGrows(s, q);
      ObservedByte(s + q, p[|p| - 1]);
      assert s + p == (s + q) + [p[|p| - 1]];
    }
  }

  lemma OversizedSteps(s: bytes, p: bytes)
    requires NoLf(p)
    ensures Oversized(s + p) == Oversized(s) + if |Rest(s)| <= LONGEST < |Rest(s)| + |p| then 1 else 0
    ensures Oversized(s + [LF]) == Oversized(s)
  {
    AppendPiece(s, p);
    AppendByte(s, LF);
    KeptAppend(Lines(s), Rest(s));
  }

  lemma {:induction false} OversizedGrows(s: bytes, p: bytes)
    ensures Oversized(s) <= Oversized(s + p)
    decreases |p|
  {
    if p == [] {
      assert s + p == s;
    } else {
      var q, b := p[..|p| - 1], p[|p| - 1];
      OversizedGrows(s, q);
      OversizedSteps(s + q, if b == LF then [] else [b]);
      assert s + p == (s + q) + [b];
    }
  }

  /** How many of the first `n` lines have at most 8192 characters. */
  ghost function ShortBefore(lines: seq<bytes>, n: nat): nat
    requires n <= |lines|
  {
    |set i | 0 <= i < n && |lines[i]| <= 8192|
  }

  lemma ShortGrows(lines: seq<bytes>, n: nat)
    requires n < |lines|
    ensures ShortBefore(lines, n + 1) == ShortBefore(lines, n) + if |lines[n]| <= 8192 then 1 else 0
  {
    var before, more := set i | 0 <= i < n && |lines[i]| <= 8192, set i | 0 <= i < n + 1 && |lines[i]| <= 8192;
    assert more == before + if |lines[n]| <= 8192 then {n} else {};
  }

  lemma ShortInFront(lines: seq<bytes>, n: nat)
    requires n < |lines|
    ensures ShortBefore(lines[..|lines| - 1], n) == ShortBefore(lines, n)
  {
    var front := lines[..|lines| - 1];
    assert (set i | 0 <= i < n && |front[i]| <= 8192) == (set i | 0 <= i < n && |lines[i]| <= 8192);
  }

  /** Exactly the lines of at most 8192 characters are kept, each in its place among them. */
  lemma {:induction false} ShortLinesAreKept(lines: seq<bytes>)
    ensures |Kept(lines)| == ShortBefore(lines, |lines|)
    ensures forall i :: 0 <= i < |lines| && |lines[i]| <= 8192 ==>
                          ShortBefore(lines, i) < |Kept(lines)| && Kept(lines)[ShortBefore(lines, i)] == lines[i]
  {
    hide ShortBefore;
    if lines == [] {
      NothingShort(lines, 0);
    } else {
      var front, n := lines[..|lines| - 1], |lines| - 1;
      ShortLinesAreKept(front);
      ShortGrows(lines, n);
      forall i | 0 <= i < |lines| ensures ShortBefore(front, if i < n then i else n) == ShortBefore(lines, i) {
        ShortInFront(lines, i);
      }
    }
  }

  lemma NothingShort(lines: seq<bytes>, n: nat)
    requires n <= |lines|
    ensures n == 0 ==> ShortBefore(lines, n) == 0
  {
    var before := set i | 0 <= i < n && |lines[i]| <= 8192;
    if n == 0 {
      assert before == {};
    }
  }

  /** Too long are the other lines, and an unfinished one of more than 8192 characters. */
  lemma OversizedExactly(s: bytes)
    ensures Oversized(s) == |Lines(s)| - ShortBefore(Lines(s), |Lines(s)|) + if |Rest(s)| > 8192 then 1 else 0
    ensures PartialOf(s) == if |Rest(s)| > 8192 then Partial([], true) else Partial(Rest(s), false)
  {
    ShortLinesAreKept(Lines(s));
  }

  // ---------- what the tee makes of the lines ----------

  type Event = bytes

  datatype Facts = Facts(events: seq<Event>, observed: nat, invalid: nat, oversized: nat, truncated: nat)

  /** "[lookup-presentation] " */
  const MARKER: bytes := [91, 108, 111, 111, 107, 117, 112, 45, 112, 114, 101, 115, 101, 110, 116, 97, 116, 105, 111, 110, 93, 32]

  datatype Reading = Ignored | Invalid | Valid(event: Event)

  /** A line with the marker is an event or invalid; other lines are none of the tee's business. */
  function Interpret(parse: bytes -> Option<Event>, line: bytes): Reading {
    if !StartsWith(line, MARKER) then Ignored
    else match parse(line[|MARKER|..])
      case None => Invalid
      case Some(e) => Valid(e)
  }

  function Events(parse: bytes -> Option<Event>, lines: seq<bytes>): seq<Event> {
    if lines == [] then []
    else Events(parse, lines[..|lines| - 1])
         + match Interpret(parse, lines[|lines| - 1]) case Valid(e) => [e] case _ => []
  }

  function Invalids(parse: bytes -> Option<Event>, lines: seq<bytes>): nat {
    if lines == [] then 0
    else Invalids(parse, lines[..|lines| - 1]) + if Interpret(parse, lines[|lines| - 1]).Invalid? then 1 else 0
  }

  function Saturated(n: nat): nat {
    if n <= SATURATION then n else SATURATION
  }

  /** The facts of a log of lines: the first sixteen events, and saturating counts. */
  function FactsOf(parse: bytes -> Option<Event>, log: seq<bytes>, oversized: nat): Facts {
    var es := Events(parse, log);
    Facts(if |es| <= RETAINED then es else es[..RETAINED], Saturated(|es|), Saturated(Invalids(parse, log)),
          Saturated(oversized), Saturated(if |es| <= RETAINED then 0 else |es| - RETAINED))
  }

  /** A line with the marker; an event is one whose text the parser takes. */
  predicate Marked(line: bytes) {
    |line| >= 22 && line[..22] == Literal("[lookup-presentation] ")
  }

  predicate IsEvent(parse: bytes -> Option<Event>, line: bytes) {
    Marked(line) && parse(line[22..]).Some?
  }

  lemma ReadingExactly(parse: bytes -> Option<Event>, line: bytes)
    ensures Interpret(parse, line) == if IsEvent(parse, line) then Valid(parse(line[22..]).value)
                                      else if Marked(line) then Invalid else Ignored
  {
    assert MARKER == Literal("[lookup-presentation] ");
  }

  ghost function EventsBefore(parse: bytes -> Option<Event>, log: seq<bytes>, n: nat): nat
    requires n <= |log|
  {
    |set i | 0 <= i < n && IsEvent(parse, log[i])|
  }

  lemma EventsBeforeGrow(parse: bytes -> Option<Event>, log: seq<bytes>, n: nat)
    requires n < |log|
    ensures EventsBefore(parse, log, n + 1) == EventsBefore(parse, log, n) + if IsEvent(parse, log[n]) then 1 else 0
    ensures EventsBefore(parse, log[..|log| - 1], n) == EventsBefore(parse, log, n)
  {
    hide IsEvent;
    var front := log[..|log| - 1];
    var before, more := set i | 0 <= i < n && IsEvent(parse, log[i]), set i | 0 <= i < n + 1 && IsEvent(parse, log[i]);
    assert more == before + if IsEvent(parse, log[n]) then {n} else {};
    assert (set i | 0 <= i < n && IsEvent(parse, front[i])) == before;
  }

  /** The events are what the parser makes of the event lines, in their order. */
  lemma {:induction false} EventsAreParsed(parse: bytes -> Option<Event>, log: seq<bytes>)
    ensures |Events(parse, log)| == EventsBefore(parse, log, |log|)
    ensures forall i :: 0 <= i < |log| && IsEvent(parse, log[i]) ==>
                          && EventsBefore(parse, log, i) < |Events(parse, log)|
                          && Events(parse, log)[EventsBefore(parse, log, i)] == parse(log[i][22..]).value
  {
    hide EventsBefore, Interpret, IsEvent;
    if log == [] {
      NoEventsYet(parse, log, 0);
    } else {
      var front, n := log[..|log| - 1], |log| - 1;
      EventsAreParsed(parse, front);
      EventsBeforeGrow(parse, log, n);
      ReadingExactly(parse, log[n]);
      forall i | 0 <= i < |log| ensures EventsBefore(parse, front, if i < n then i else n) == EventsBefore(parse, log, i) {
        EventsBeforeGrow(parse, log, i);
      }
    }
  }

  lemma NoEventsYet(parse: bytes -> Option<Event>, log: seq<bytes>, n: nat)
    requires n <= |log|
    ensures n == 0 ==> EventsBefore(parse, log, n) == 0
  {
    var before := set i | 0 <= i < n && IsEvent(parse, log[i]);
    if n == 0 {
      assert before == {};
    }
  }

  /** Invalid are the lines with the marker that are no events. */
  lemma {:induction false} InvalidsAreMarked(parse: bytes -> Option<Event>, log: seq<bytes>)
    ensures Invalids(parse, log) == |set i | 0 <= i < |log| && Marked(log[i]) && !IsEvent(parse, log[i])|
  {
    hide Interpret, IsEvent, Marked;
    var places := set i | 0 <= i < |log| && Marked(log[i]) && !IsEvent(parse, log[i]);
    if log == [] {
      assert places == {};
    } else {
      var front, n := log[..|log| - 1], |log| - 1;
      InvalidsAreMarked(parse, front);
      ReadingExactly(parse, log[n]);
      var before := set i | 0 <= i < n && Marked(front[i]) && !IsEvent(parse, front[i]);
      EventsAreMarked(parse, log[n]);
      assert places == before + if Marked(log[n]) && !IsEvent(parse, log[n]) then {n} else {};
    }
  }

  lemma EventsAreMarked(parse: bytes -> Option<Event>, line: bytes)
    ensures IsEvent(parse, line) ==> Marked(line)
  {
  }

  function Capped(n: nat): nat {
    if n > 1_000_000 then 1_000_000 else n
  }

  /** What the facts show: the first sixteen events, and every count up to a million. */
  lemma FactsShow(parse: bytes -> Option<Event>, log: seq<bytes>, oversized: nat)
    ensures var f, n := FactsOf(parse, log, oversized), EventsBefore(parse, log, |log|);
            && f.observed == Capped(n) && f.oversized == Capped(oversized)
            && f.truncated == Capped(if n > 16 then n - 16 else 0)
            && f.invalid == Capped(|set i | 0 <= i < |log| && Marked(log[i]) && !IsEvent(parse, log[i])|)
            && |f.events| == (if n > 16 then 16 else n)
            && forall i :: 0 <= i < |log| && IsEvent(parse, log[i]) && EventsBefore(parse, log, i) < |f.events| ==>
                             f.events[EventsBefore(parse, log, i)] == parse(log[i][22..]).value
  {
    hide EventsBefore, IsEvent, Marked, Events, Invalids;
    EventsAreParsed(parse, log);
    InvalidsAreMarked(parse, log);
  }

  /** `_increment`. */
  function Increment(n: nat): nat {
    if n + 1 <= SATURATION then n + 1 else SATURATION
  }

  /** `_line`, but for saving. */
  function AfterLine(parse: bytes -> Option<Event>, f: Facts, line: bytes): Facts {
    match Interpret(parse, line)
    case Ignored => f
    case Invalid => f.(invalid := Increment(f.invalid))
    case Valid(e) =>
      var g := f.(observed := Increment(f.observed));
      if |g.events| < RETAINED then g.(events := g.events + [e]) else g.(truncated := Increment(g.truncated))
  }

  lemma FactsGrow(parse: bytes -> Option<Event>, log: seq<bytes>, line: bytes, oversized: nat)
    ensures AfterLine(parse, FactsOf(parse, log, oversized), line) == FactsOf(parse, log + [line], oversized)
  {
    var more := log + [line];
    assert more[..|log|] == log && more[|log|] == line;
    hide Interpret;
    var es := Events(parse, log);
    match Interpret(parse, line)
    case Ignored =>
    case Invalid =>
    case Valid(e) =>
      if |es| < RETAINED {
        assert es[..|es|] == es;
      } else {
        assert (es + [e])[..RETAINED] == es[..RETAINED];
      }
  }

  // ---------- histories of writes by threads ----------

  /** What the delegate accepted of one write. */
  datatype Write = Write(thread: nat, text: bytes)

  /** The accepted stream of one thread. */
  function StreamOf(h: seq<Write>, thread: nat): bytes {
    if h == [] then []
    else StreamOf(h[..|h| - 1], thread) + if h[|h| - 1].thread == thread then h[|h| - 1].text else []
  }

  /** The lines a write completes. */
  function NewLines(s: bytes, p: bytes): seq<bytes> {
    ObservedGrows(s, p);
    Observed(s + p)[|Observed(s)|..]
  }

  datatype Entry = Entry(thread: nat, line: bytes)

  function Tag(thread: nat, lines: seq<bytes>): seq<Entry> {
    seq(|lines|, i requires 0 <= i < |lines| => Entry(thread, lines[i]))
  }

  function Untagged(log: seq<Entry>): seq<bytes> {
    seq(|log|, i requires 0 <= i < |log| => log[i].line)
  }

  /** The lines observed over a history, in the order in which they were completed. */
  function LogOf(h: seq<Write>): seq<Entry> {
    if h == [] then []
    else
      var front, w := h[..|h| - 1], h[|h| - 1];
      LogOf(front) + Tag(w.thread, NewLines(StreamOf(front, w.thread), w.text))
  }

  function OversizedOf(h: seq<Write>): nat {
    if h == [] then 0
    else
      var front, w := h[..|h| - 1], h[|h| - 1];
      OversizedGrows(StreamOf(front, w.thread), w.text);
      OversizedOf(front) + (Oversized(StreamOf(front, w.thread) + w.text) - Oversized(StreamOf(front, w.thread)))
  }

  /** The lines of one thread in a log. */
  function Projected(log: seq<Entry>, thread: nat): seq<bytes> {
    if log == [] then []
    else Projected(log[..|log| - 1], thread) + if log[|log| - 1].thread == thread then [log[|log| - 1].line] else []
  }

  lemma {:induction false} ProjectTagged(log: seq<Entry>, from: nat, lines: seq<bytes>, thread: nat)
    ensures Projected(log + Tag(from, lines), thread) == Projected(log, thread) + if from == thread then lines else []
    decreases |lines|
  {
    hide Projected, Tag;
    if lines == [] {
      assert log + Tag(from, lines) == log by { TagNothing(from); }
    } else {
      var front, last := lines[..|lines| - 1], lines[|lines| - 1];
      ProjectTagged(log, from, front, thread);
      TagSplits(from, front, last);
      assert lines == front + [last];
      assert log + Tag(from, lines) == (log + Tag(from, front)) + [Entry(from, last)];
      ProjectOne(log + Tag(from, front), Entry(from, last), thread);
      assert Projected(log, thread) + lines == (Projected(log, thread) + front) + [last];
    }
  }

  lemma ProjectOne(log: seq<Entry>, e: Entry, thread: nat)
    ensures Projected(log + [e], thread) == Projected(log, thread) + if e.thread == thread then [e.line] else []
  {
    assert (log + [e])[..|log|] == log;
  }

  lemma TagNothing(from: nat)
    ensures Tag(from, []) == []
  {
  }

  lemma TagSplits(from: nat, front: seq<bytes>, last: bytes)
    ensures Tag(from, front + [last]) == Tag(from, front) + [Entry(from, last)]
  {
  }

  /**
   Threads never mix: whatever the interleaving and the chunking, the lines observed of a thread are the
   complete lines of at most 8192 characters of that thread's own accepted stream, in order.
   */
  lemma {:induction false} ThreadsNeverMix(h: seq<Write>, thread: nat)
    ensures Projected(LogOf(h), thread) == Observed(StreamOf(h, thread))
  {
    hide Observed;
    if h == [] {
      NothingObserved();
    } else {
      var front, w := h[..|h| - 1], h[|h| - 1];
      ThreadsNeverMix(front, thread);
      ProjectTagged(LogOf(front), w.thread, NewLines(StreamOf(front, w.thread), w.text), thread);
      var s := StreamOf(front, thread);
      ObservedGrows(s, w.text);
      assert Observed(s + w.text) == Observed(s) + NewLines(s, w.text);
      assert s + [] == s;
    }
  }

  lemma NothingObserved()
    ensures Observed([]) == []
  {
  }

  /** One thread's observed lines depend on its stream alone, not on how it was cut into writes. */
  lemma ChunkingDoesNotMatter(h: seq<Write>, g: seq<Write>, thread: nat)
    requires StreamOf(h, thread) == StreamOf(g, thread)
    ensures Projected(LogOf(h), thread) == Projected(LogOf(g), thread)
  {
    ThreadsNeverMix(h, thread);
    ThreadsNeverMix(g, thread);
  }

  // ---------- the tee ----------

  /** The history after a write of which `text` was accepted. */
  function Wrote(h: seq<Write>, thread: nat, text: bytes): seq<Write> {
    h + [Write(thread, text)]
  }

  /** The facts once part `q` of a write to stream `s` is processed. */
  function FactsWithin(parse: bytes -> Option<Event>, log: seq<bytes>, oversized: nat, s: bytes, q: bytes): Facts {
    OversizedGrows(s, q);
    FactsOf(parse, log + NewLines(s, q), oversized + (Oversized(s + q) - Oversized(s)))
  }

  lemma NothingWithin(parse: bytes -> Option<Event>, log: seq<bytes>, oversized: nat, s: bytes)
    ensures FactsWithin(parse, log, oversized, s, []) == FactsOf(parse, log, oversized) && s + [] == s
  {
    hide FactsOf, Lines, Kept, Observed;
    assert s + [] == s;
    assert NewLines(s, []) == [];
    assert log + [] == log;
  }

  lemma OversizedFacts(parse: bytes -> Option<Event>, log: seq<bytes>, oversized: nat)
    ensures var f := FactsOf(parse, log, oversized);
            f.(oversized := Increment(f.oversized)) == FactsOf(parse, log, oversized + 1)
  {
  }

  /** A piece without line feed lengthens the unfinished line, and may make it too long. */
  lemma PieceWithin(parse: bytes -> Option<Event>, log: seq<bytes>, oversized: nat, s: bytes, q: bytes, piece: bytes)
    requires NoLf(piece)
    ensures var p := PartialOf(s + q);
            var f := FactsWithin(parse, log, oversized, s, q);
            var overlong := !p.dropping && |p.pending| + |piece| > LONGEST;
            && FactsWithin(parse, log, oversized, s, q + piece)
               == (if overlong then f.(oversized := Increment(f.oversized)) else f)
            && PartialOf(s + (q + piece))
               == (if p.dropping || overlong then Partial([], true) else Partial(p.pending + piece, false))
  {
    hide FactsOf, Kept, Observed;
    assert s + (q + piece) == (s + q) + piece;
    AppendPiece(s + q, piece);
    OversizedSteps(s + q, piece);
    OversizedGrows(s, q);
    SameLines(s, q, piece);
    OversizedFacts(parse, log + NewLines(s, q), oversized + (Oversized(s + q) - Oversized(s)));
  }

  lemma SameLines(s: bytes, q: bytes, piece: bytes)
    requires NoLf(piece)
    ensures NewLines(s, q + piece) == NewLines(s, q)
  {
    assert s + (q + piece) == (s + q) + piece;
    AppendPiece(s + q, piece);
  }

  /** A line feed completes the unfinished line, which is observed unless it is too long. */
  lemma LfWithin(parse: bytes -> Option<Event>, log: seq<bytes>, oversized: nat, s: bytes, q: bytes)
    ensures var p := PartialOf(s + q);
            var seen := if p.dropping then [] else [p.pending];
            && NewLines(s, q + [LF]) == NewLines(s, q) + seen
            && FactsWithin(parse, log, oversized, s, q + [LF])
               == FactsOf(parse, log + NewLines(s, q) + seen, oversized + Growth(s, q))
            && PartialOf(s + (q + [LF])) == Partial([], false)
  {
    hide FactsOf, Kept, Observed;
    assert s + (q + [LF]) == (s + q) + [LF];
    AppendByte(s + q, LF);
    ObservedByte(s + q, LF);
    ObservedGrows(s, q);
    OversizedSteps(s + q, []);
    var seen := if PartialOf(s + q).dropping then [] else [PartialOf(s + q).pending];
    assert log + (NewLines(s, q) + seen) == log + NewLines(s, q) + seen;
  }

  function Growth(s: bytes, q: bytes): nat {
    OversizedGrows(s, q);
    Oversized(s + q) - Oversized(s)
  }

  /** After the whole of it, the facts and the stream are those of the longer history. */
  lemma WrittenWhole(parse: bytes -> Option<Event>, h: seq<Write>, thread: nat, text: bytes)
    ensures FactsWithin(parse, Untagged(LogOf(h)), OversizedOf(h), StreamOf(h, thread), text)
            == FactsOf(parse, Untagged(LogOf(Wrote(h, thread, text))), OversizedOf(Wrote(h, thread, text)))
    ensures StreamOf(Wrote(h, thread, text), thread) == StreamOf(h, thread) + text
    ensures forall other: nat :: other != thread ==> StreamOf(Wrote(h, thread, text), other) == StreamOf(h, other)
  {
    hide FactsOf, Observed, Oversized;
    var w := Wrote(h, thread, text);
    assert w[..|w| - 1] == h && w[|w| - 1] == Write(thread, text);
    var added := NewLines(StreamOf(h, thread), text);
    assert Untagged(LogOf(h) + Tag(thread, added)) == Untagged(LogOf(h)) + added;
    forall other: nat | other != thread ensures StreamOf(w, other) == StreamOf(h, other) {
      assert StreamOf(h, other) + [] == StreamOf(h, other);
    }
  }

  /** How many of the lines carry the marker. */
  function MarkedCount(lines: seq<bytes>): nat {
    if lines == [] then 0 else MarkedCount(lines[..|lines| - 1]) + if Marked(lines[|lines| - 1]) then 1 else 0
  }

  /** What part `q` of a write gives reason to save: a line with the marker, and a line that becomes too long. */
  function Savings(s: bytes, q: bytes): nat {
    MarkedCount(NewLines(s, q)) + Growth(s, q)
  }

  lemma SavingsGrow(s: bytes, q: bytes, piece: bytes)
    ensures Savings(s, []) == 0
    ensures NoLf(piece) ==>
              var p := PartialOf(s + q);
              Savings(s, q + piece) == Savings(s, q) + if !p.dropping && |p.pending| + |piece| > LONGEST then 1 else 0
    ensures var p := PartialOf(s + q);
            Savings(s, q + [LF]) == Savings(s, q) + if !p.dropping && Marked(p.pending) then 1 else 0
  {
    hide Marked, Kept, Observed;
    assert s + [] == s && NewLines(s, []) == [];
    var seen := if PartialOf(s + q).dropping then [] else [PartialOf(s + q).pending];
    LfWithin(_ => None, [], 0, s, q);
    OversizedSteps(s + q, []);
    assert s + (q + [LF]) == (s + q) + [LF] && s + (q + piece) == (s + q) + piece;
    assert (NewLines(s, q) + seen)[..|NewLines(s, q)|] == NewLines(s, q);
    assert NewLines(s, q) + [] == NewLines(s, q);
    if NoLf(piece) {
      SameLines(s, q, piece);
      OversizedSteps(s + q, piece);
    }
  }

  /** `PolicyDiagnosticTee`: it works on each write by chunk, looking for the next line feed. */
  class PolicyDiagnosticTee {
    const parse: bytes -> Option<Event>
    var partials: map<nat, Partial>  // each thread's own
    var facts: Facts
    var saveFailures: nat
    ghost var saves: nat             // how often saving was tried
    ghost var history: seq<Write>    // what the delegate accepted

    function PartialAt(thread: nat): Partial
      reads this
    {
      if thread in partials then partials[thread] else Partial([], false)
    }

    ghost predicate Valid()
      reads this
    {
      && (forall thread: nat :: PartialAt(thread) == PartialOf(StreamOf(history, thread)))
      && facts == FactsOf(parse, Untagged(LogOf(history)), OversizedOf(history))
    }

    constructor (parser: bytes -> Option<Event>)
      ensures Valid() && history == [] && parse == parser && saveFailures == 0
    {
      parse, partials, saveFailures, saves, history := parser, map[], 0, 0, [];
      facts := Facts([], 0, 0, 0, 0);
      new;
      assert Untagged(LogOf([])) == [];
    }

    /** Saving may fail; then only the count of failures tells. */
    method Persist()
      modifies `saveFailures, `saves
      ensures saves == old(saves) + 1
    {
      saves := saves + 1;
      var ok: bool := *;
      if !ok {
        saveFailures := Increment(saveFailures);
      }
    }

    method Line(line: bytes, ghost log: seq<bytes>, ghost oversized: nat)
      requires facts == FactsOf(parse, log, oversized)
      modifies `facts, `saveFailures, `saves
      ensures facts == FactsOf(parse, log + [line], oversized)
      ensures saves == old(saves) + if Marked(line) then 1 else 0
    {
      hide FactsOf, Interpret, Marked;
      FactsGrow(parse, log, line, oversized);
      ReadingExactly(parse, line);
      EventsAreMarked(parse, line);
      var reading := Interpret(parse, line);
      match reading {
        case Ignored => return;
        case Invalid => facts := facts.(invalid := Increment(facts.invalid));
        case Valid(event) =>
          facts := facts.(observed := Increment(facts.observed));
          if |facts.events| < RETAINED {
            facts := facts.(events := facts.events + [event]);
          } else {
            facts := facts.(truncated := Increment(facts.truncated));
          }
      }
      Persist();
    }

    /** The text up to a line feed or the end of what was accepted. */
    method Take(pending: bytes, dropping: bool, piece: bytes, ghost log: seq<bytes>, ghost oversized: nat,
                ghost s: bytes, ghost q: bytes)
      returns (pending': bytes, dropping': bool)
      requires NoLf(piece) && Partial(pending, dropping) == PartialOf(s + q)
      requires facts == FactsWithin(parse, log, oversized, s, q)
      modifies `facts, `saveFailures, `saves
      ensures Partial(pending', dropping') == PartialOf(s + (q + piece))
      ensures facts == FactsWithin(parse, log, oversized, s, q + piece)
      ensures saves == old(saves) + (Savings(s, q + piece) - Savings(s, q))
    {
      hide FactsWithin, PartialOf, Savings;
      SavingsGrow(s, q, piece);
      PieceWithin(parse, log, oversized, s, q, piece);
      pending', dropping' := pending, dropping;
      if !dropping {
        if |pending| + |piece| > LONGEST {
          pending', dropping' := [], true;
          facts := facts.(oversized := Increment(facts.oversized));
          Persist();
        } else {
          pending' := pending + piece;
        }
      }
      assert PartialOf(s + q).dropping ==> PartialOf(s + q).pending == [] by { DroppingForgets(s + q); }
    }

    /** A line feed: the line is observed unless it was too long. */
    method EndLine(pending: bytes, dropping: bool, ghost log: seq<bytes>, ghost oversized: nat, ghost s: bytes, ghost q: bytes)
      requires Partial(pending, dropping) == PartialOf(s + q) && facts == FactsWithin(parse, log, oversized, s, q)
      modifies `facts, `saveFailures, `saves
      ensures facts == FactsWithin(parse, log, oversized, s, q + [LF]) && PartialOf(s + (q + [LF])) == Partial([], false)
      ensures saves == old(saves) + (Savings(s, q + [LF]) - Savings(s, q))
    {
      SavingsGrow(s, q, []);
      LfWithin(parse, log, oversized, s, q);
      FactsAt(parse, log, oversized, s, q);
      hide *;
      if !dropping {
        Line(pending, log + NewLines(s, q), oversized + Growth(s, q));
      } else {
        NoneSeen(log + NewLines(s, q));
      }
    }

    /** The loop over one accepted text. */
    method Process(accepted: bytes, pending: bytes, dropping: bool, ghost log: seq<bytes>, ghost oversized: nat, ghost s: bytes)
      returns (pending': bytes, dropping': bool)
      requires Partial(pending, dropping) == PartialOf(s) && facts == FactsOf(parse, log, oversized)
      modifies `facts, `saveFailures, `saves
      ensures Partial(pending', dropping') == PartialOf(s + accepted)
      ensures facts == FactsWithin(parse, log, oversized, s, accepted) && saves == old(saves) + Savings(s, accepted)
    {
      NothingWithin(parse, log, oversized, s);
      SavingsGrow(s, [], []);
      hide FactsOf, FactsWithin, PartialOf, Savings;
      pending', dropping' := pending, dropping;
      ghost var q: bytes := [];
      var start := 0;
      while start < |accepted|
        invariant 0 <= start <= |accepted| + 1
        invariant q == accepted[..if start < |accepted| then start else |accepted|]
        invariant Partial(pending', dropping') == PartialOf(s + q) && facts == FactsWithin(parse, log, oversized, s, q)
        invariant saves == old(saves) + Savings(s, q)
      {
        var found := Find(accepted, LF, start);
        var newline := found.Some?;
        var end := if newline then found.value else |accepted|;
        pending', dropping' := Take(pending', dropping', accepted[start..end], log, oversized, s, q);
        q := q + accepted[start..end];
        assert q == accepted[..end];
        if newline {
          EndLine(pending', dropping', log, oversized, s, q);
          q := q + [LF];
          pending', dropping' := [], false;
        }
        start := end + 1;
      }
      assert q == accepted;
    }

    /**
     `write`; `result` is what the delegate returned, None when it is not an integer. Only a result within the
     text counts, and then exactly the accepted part of it.
     */
    method Write(thread: nat, text: bytes, result: Option<int>)
      requires Valid()
      modifies this
      ensures Valid()
      ensures history == if result.Some? && 0 <= result.value <= |text| then Wrote(old(history), thread, text[..result.value])
                         else old(history)
      ensures saves == old(saves) + if result.Some? && 0 <= result.value <= |text|
                                    then Savings(StreamOf(old(history), thread), text[..result.value]) else 0
    {
      if result.None? || !(0 <= result.value <= |text|) {
        return;
      }
      hide FactsOf, FactsWithin, PartialOf, StreamOf, LogOf, OversizedOf, Untagged, Savings, Wrote;
      var accepted := text[..result.value];
      var p := PartialAt(thread);
      ghost var h := history;
      var pending, dropping :=
        Process(accepted, p.pending, p.dropping, Untagged(LogOf(h)), OversizedOf(h), StreamOf(h, thread));
      WrittenWhole(parse, h, thread, accepted);
      partials := partials[thread := Partial(pending, dropping)];
      history := Wrote(h, thread, accepted);
    }
  }

  lemma DroppingForgets(s: bytes)
    ensures PartialOf(s).dropping ==> PartialOf(s).pending == []
  {
  }

  lemma FactsAt(parse: bytes -> Option<Event>, log: seq<bytes>, oversized: nat, s: bytes, q: bytes)
    ensures FactsWithin(parse, log, oversized, s, q) == FactsOf(parse, log + NewLines(s, q), oversized + Growth(s, q))
  {
  }

  lemma NoneSeen(log: seq<bytes>)
    ensures log + [] == log
  {
  }

  // ---------- the capture ----------

  type Name = string

  /** A line and the time at which it was completed: that of the chunk that held its line feed. */
  datatype Stamped = Stamped(line: bytes, at: int)

  /** The observed lines of a stream whose bytes carry the times of their chunks. */
  function StampedLines(s: bytes, stamps: seq<int>): seq<Stamped>
    requires |s| == |stamps|
    decreases |s|
  {
    if s == [] then []
    else
      var n := |s| - 1;
      StampedLines(s[..n], stamps[..n]) + if s[n] == LF && |Rest(s[..n])| <= LONGEST then [Stamped(Rest(s[..n]), stamps[n])] else []
  }

  function Unstamped(log: seq<Stamped>): seq<bytes> {
    seq(|log|, i requires 0 <= i < |log| => log[i].line)
  }

  lemma StampedByte(s: bytes, stamps: seq<int>, b: byte, at: int)
    requires |s| == |stamps|
    ensures StampedLines(s + [b], stamps + [at])
            == StampedLines(s, stamps) + if b == LF && |Rest(s)| <= LONGEST then [Stamped(Rest(s), at)] else []
  {
    assert (s + [b])[..|s|] == s && (stamps + [at])[..|s|] == stamps;
  }

  /** Each of them ends at a line feed, and has the time of that byte. */
  lemma {:induction false} StampsAreOfLineFeeds(s: bytes, stamps: seq<int>, i: nat) returns (k: nat)
    requires |s| == |stamps| && i < |StampedLines(s, stamps)|
    ensures k < |s| && s[k] == LF && StampedLines(s, stamps)[i] == Stamped(Rest(s[..k]), stamps[k])
    ensures i == |StampedLines(s[..k], stamps[..k])|
    decreases |s|
  {
    var n := |s| - 1;
    if i < |StampedLines(s[..n], stamps[..n])| {
      k := StampsAreOfLineFeeds(s[..n], stamps[..n], i);
      assert s[..n][..k] == s[..k] && stamps[..n][..k] == stamps[..k];
    } else {
      k := n;
    }
  }

  /** Times apart, these are the observed lines. */
  lemma {:induction false} StampedAreObserved(s: bytes, stamps: seq<int>)
    requires |s| == |stamps|
    ensures Unstamped(StampedLines(s, stamps)) == Observed(s)
    decreases |s|
  {
    hide Observed;
    if s == [] {
      NothingObserved();
    } else {
      var n := |s| - 1;
      StampedAreObserved(s[..n], stamps[..n]);
      ObservedByte(s[..n], s[n]);
      assert s == s[..n] + [s[n]];
    }
  }

  /** What is kept of a category: a saturating count and the times of its first and its last line. */
  datatype Item = Item(count: nat, first: int, last: int)

  function Noted(item: Option<Item>, at: int): Item {
    match item
    case None => Item(1, at, at)
    case Some(i) => Item(Increment(i.count), i.first, at)
  }

  function ItemOf(categorise: bytes -> set<Name>, log: seq<Stamped>, name: Name): Option<Item> {
    if log == [] then None
    else
      var before, last := ItemOf(categorise, log[..|log| - 1], name), log[|log| - 1];
      if name in categorise(last.line) then Some(Noted(before, last.at)) else before
  }

  /** How many of the lines fall under a category. */
  function Occurrences(categorise: bytes -> set<Name>, lines: seq<bytes>, name: Name): nat {
    if lines == [] then 0
    else Occurrences(categorise, lines[..|lines| - 1], name) + if name in categorise(lines[|lines| - 1]) then 1 else 0
  }

  /** The places of the first and the last line of a category. */
  ghost predicate Extremes(categorise: bytes -> set<Name>, log: seq<Stamped>, name: Name, i: nat, j: nat) {
    && i <= j < |log| && name in categorise(log[i].line) && name in categorise(log[j].line)
    && (forall k :: 0 <= k < i ==> name !in categorise(log[k].line))
    && (forall k :: j < k < |log| ==> name !in categorise(log[k].line))
  }

  /** A category is there exactly if a line falls under it; it has their count and the times of the first and the last. */
  lemma {:induction false} ItemMeans(categorise: bytes -> set<Name>, log: seq<Stamped>, name: Name) returns (i: nat, j: nat)
    ensures var item := ItemOf(categorise, log, name);
            && (if item.Some? then item.value.count else 0) == Capped(Occurrences(categorise, Unstamped(log), name))
            && (item.None? <==> forall k :: 0 <= k < |log| ==> name !in categorise(log[k].line))
            && (item.Some? ==> Extremes(categorise, log, name, i, j) && item.value.first == log[i].at && item.value.last == log[j].at)
  {
    i, j := 0, 0;
    if log != [] {
      var n := |log| - 1;
      i, j := ItemMeans(categorise, log[..n], name);
      assert Unstamped(log)[..n] == Unstamped(log[..n]);
      assert forall k :: 0 <= k < n ==> log[..n][k] == log[k];
      if name in categorise(log[n].line) {
        i, j := if ItemOf(categorise, log[..n], name).Some? then i else n, n;
      }
    }
  }

  function ItemAt(categories: map<Name, Item>, name: Name): Option<Item> {
    if name in categories then Some(categories[name]) else None
  }

  /** The categories kept are those of the log. */
  ghost predicate Counted(categorise: bytes -> set<Name>, categories: map<Name, Item>, log: seq<Stamped>) {
    forall name: Name :: ItemAt(categories, name) == ItemOf(categorise, log, name)
  }

  /** Python's `a or b` for a time that may be absent. */
  function Either(a: Option<int>, b: int): int {
    if a.Some? && a.value != 0 then a.value else b
  }

  function Least(a: int, b: int): int {
    if a <= b then a else b
  }

  /** `CappedCapture`: it works byte by byte, and stores up to a limit besides. */
  class CappedCapture {
    const limit: nat
    const categorise: bytes -> set<Name>
    var file: bytes
    var stored: nat
    var seen: nat
    var overflow: bool
    var readFailed: bool
    var lineOverflow: bool
    var pending: bytes
    var dropping: bool
    var categories: map<Name, Item>
    var firstBytes: Option<int>
    var lastBytes: Option<int>
    ghost var stream: bytes       // everything fed
    ghost var stamps: seq<int>    // the time of each byte's chunk

    /** The line state and the observations are those of the stream. */
    ghost predicate LinesOk()
      reads `pending, `dropping, `lineOverflow, `categories, `stream, `stamps
    {
      && Partial(pending, dropping) == PartialOf(stream)
      && (lineOverflow <==> Oversized(stream) > 0)
      && |stamps| == |stream| && Counted(categorise, categories, StampedLines(stream, stamps))
    }

    /** The stored bytes never pass the limit, and are the beginning of the stream unless a write failed. */
    ghost predicate StorageOk()
      reads this
    {
      && stored == |file| <= limit
      && seen == Least(|stream|, limit + 1)
      && (!readFailed ==> file == stream[..Least(|stream|, limit)] && (overflow <==> |stream| > limit))
    }

    constructor (cap: nat, categoriser: bytes -> set<Name>)
      ensures LinesOk() && StorageOk() && stream == [] && limit == cap && categorise == categoriser
    {
      limit, categorise := cap, categoriser;
      file, stored, seen, overflow, readFailed, lineOverflow := [], 0, 0, false, false, false;
      pending, dropping, categories, stream, stamps := [], false, map[], [], [];
      firstBytes, lastBytes := None, None;
    }

    method Line(raw: bytes, now: int, ghost log: seq<Stamped>)
      requires Counted(categorise, categories, log)
      modifies `categories
      ensures Counted(categorise, categories, log + [Stamped(raw, now)])
    {
      var names := categorise(raw);
      assert (log + [Stamped(raw, now)])[..|log|] == log;
      categories := map name | name in categories.Keys + names ::
        if name in names then Noted(ItemAt(categories, name), now) else categories[name];
    }

    /** `feed`: the capped storage, then every byte of the chunk. */
    method Feed(chunk: bytes, now: int)
      requires LinesOk() && StorageOk()
      modifies this
      ensures LinesOk() && StorageOk() && stream == old(stream) + chunk && stamps == old(stamps) + seq(|chunk|, _ => now)
      ensures lastBytes == Some(now)
      ensures firstBytes == if old(firstBytes).Some? && old(firstBytes).value != 0 then old(firstBytes) else Some(now)
    {
      hide LinesOk;
      ghost var before, times := stream, stamps;
      firstBytes, lastBytes := Some(Either(firstBytes, now)), Some(now);
      Store(chunk);
      assert times + seq(0, _ => now) == times;
      for i := 0 to |chunk|
        invariant LinesOk() && stream == before + chunk[..i] && stamps == times + seq(i, _ => now)
        invariant stored == |file| <= limit && seen == Least(|before| + |chunk|, limit + 1)
        invariant !readFailed ==> file == (before + chunk)[..Least(|before| + |chunk|, limit)]
                                  && (overflow <==> |before| + |chunk| > limit)
        invariant lastBytes == Some(now) && firstBytes == Some(Either(old(firstBytes), now))
      {
        assert before + chunk[..i + 1] == (before + chunk[..i]) + [chunk[i]];
        assert times + seq(i + 1, _ => now) == (times + seq(i, _ => now)) + [now];
        FeedByte(chunk[i], now);
      }
      assert chunk[..|chunk|] == chunk;
    }

    method Store(chunk: bytes)
      requires StorageOk()
      modifies `file, `stored, `seen, `overflow, `readFailed
      ensures stored == |file| <= limit && seen == Least(|stream| + |chunk|, limit + 1)
      ensures !readFailed ==> file == (stream + chunk)[..Least(|stream| + |chunk|, limit)]
                              && (overflow <==> |stream| + |chunk| > limit)
    {
      seen := Least(seen + |chunk|, limit + 1);
      var kept := chunk[..Least(|chunk|, limit - stored)];
      overflow := overflow || |kept| != |chunk|;
      var failed: bool := *;
      if failed {
        readFailed := true;
      } else {
        assert !readFailed ==> (stream + chunk)[..Least(|stream| + |chunk|, limit)] == file + kept;
        file := file + kept;
        stored := stored + |kept|;
      }
    }

    method FeedByte(b: byte, now: int)
      requires LinesOk()
      modifies `pending, `dropping, `lineOverflow, `categories, `stream, `stamps
      ensures LinesOk() && stream == old(stream) + [b] && stamps == old(stamps) + [now]
    {
      hide Lines, Counted, Kept, StampedLines;
      OversizedSteps(stream, if b == LF then [] else [b]);
      AppendByte(stream, b);
      StampedByte(stream, stamps, b, now);
      if b == LF {
        if !dropping {
          Line(pending, now, StampedLines(stream, stamps));
        }
        pending, dropping := [], false;
      } else if !dropping {
        if |pending| < LONGEST {
          pending := pending + [b];
        } else {
          lineOverflow, dropping, pending := true, true, [];
        }
      }
      assert StampedLines(stream, stamps) + [] == StampedLines(stream, stamps);
      stream, stamps := stream + [b], stamps + [now];
    }

    /** `finish`: an unfinished last line is observed too, at the time of the last chunk. */
    method Finish(now: int)
      requires LinesOk() && StorageOk()
      modifies `pending, `categories, `readFailed
      ensures var at := if lastBytes.Some? && lastBytes.value != 0 then lastBytes.value else now;
              Counted(categorise, categories, StampedLines(stream, stamps)
                                              + if 0 < |Rest(stream)| <= 8192 then [Stamped(Rest(stream), at)] else [])
    {
      hide Lines, Counted, Kept, StampedLines;
      if pending != [] && !dropping {
        Line(pending, Either(lastBytes, now), StampedLines(stream, stamps));
      } else {
        assert StampedLines(stream, stamps) + [] == StampedLines(stream, stamps);
      }
      pending := [];
      var failed: bool := *;
      readFailed := readFailed || failed;
    }
  }

  /**
   Both observers see the same lines of the same stream: what the capture counts of a stream fed in any
   chunks, at any times, is what a tee observes of a thread that wrote it in any pieces.
   */
  lemma ObserversAgree(h: seq<Write>, thread: nat, categorise: bytes -> set<Name>, categories: map<Name, Item>,
                       stream: bytes, stamps: seq<int>, name: Name)
    requires StreamOf(h, thread) == stream && |stream| == |stamps|
    requires Counted(categorise, categories, StampedLines(stream, stamps))
    ensures (if name in categories then categories[name].count else 0)
            == Capped(Occurrences(categorise, Projected(LogOf(h), thread), name))
  {
    ThreadsNeverMix(h, thread);
    StampedAreObserved(stream, stamps);
    var i, j := ItemMeans(categorise, StampedLines(stream, stamps), name);
    assert ItemAt(categories, name) == ItemOf(categorise, StampedLines(stream, stamps), name);
  }
}
