/** The per-session event chain of the evidence store: what a head hash fixes, and when. */
module EvidenceChain {
  import opened Bytes
  import opened Hre1

  datatype Event = Event(eventId: bytes, sequence: int, kind: bytes, payload: bytes, payloadHash: bytes,
                         previousHash: Option<bytes>, recordHash: bytes, at: bytes, size: nat)

  datatype Phase = Open | Sealed | Other

  /** One stored session row with its events; `epoch`, `version` and `openedAt` are the row's own. */
  datatype Session = Session(installation: bytes, producer: bytes, id: bytes, epoch: bytes, version: int, openedAt: bytes,
                             phase: Phase, count: int, size: int,
                             final: Option<int>, head: Option<bytes>, taint: Option<bytes>, events: seq<Event>)

  /** What an event is parsed again as. */
  datatype Envelope = Envelope(installation: bytes, producer: bytes, session: bytes, event: bytes, sequence: int, kind: bytes,
                               payload: bytes)

  /** A field of a parsed payload. */
  datatype Value = Text(text: bytes) | Number(number: int)

  /** Payload fields that the session checks look at. */
  datatype Field = BindingId | CloseReason | FinalSequence | EpochId | ConsentVersion | DisclosureDigest

  /**
   The hash, the calendar and kind vocabulary, the canonical-JSON test of a stored payload, the snapshot
   parser and the fields of a parsed payload; a missing field is None.
   */
  datatype Oracle = Oracle(sha256: bytes -> bytes, vocabulary: Vocabulary, isCanonical: bytes -> bool, isUtc: bytes -> bool,
                           isSnapshot: Envelope -> bool, field: (bytes, Field) -> Option<Value>)

  // "binding_closed"
  const BINDING_CLOSED: bytes := [98, 105, 110, 100, 105, 110, 103, 95, 99, 108, 111, 115, 101, 100]
  // "session_seal_requested"
  const SEAL_REQUESTED: bytes := [115, 101, 115, 115, 105, 111, 110, 95, 115, 101, 97, 108, 95, 114, 101, 113, 117, 101, 115, 116, 101, 100]
  // "capacity_rollover"
  const CAPACITY_ROLLOVER: bytes := [99, 97, 112, 97, 99, 105, 116, 121, 95, 114, 111, 108, 108, 111, 118, 101, 114]

  function EnvelopeOf(s: Session, e: Event): Envelope {
    Envelope(s.installation, s.producer, s.id, e.eventId, e.sequence, e.kind, e.payload)
  }

  /** The record whose frame event `i` is hashed as, with the hash carried by the loop. */
  function RecordOf(s: Session, e: Event, previous: Option<bytes>): Record {
    Record(s.installation, s.producer, e.eventId, s.id, e.sequence, e.kind, e.at, e.payloadHash, previous)
  }

  /** The checks the loop makes on one event. */
  predicate EventOk(o: Oracle, s: Session, ordinal: int, previous: Option<bytes>, previousTime: bytes, e: Event) {
    && o.isUtc(e.at) && Leq(previousTime, e.at)
    && o.isCanonical(e.payload) && |e.payload| == e.size
    && e.sequence == ordinal && previous == e.previousHash
    && o.sha256(e.payload) == e.payloadHash && o.isSnapshot(EnvelopeOf(s, e))
    && var frame := Frame(o.vocabulary, RecordOf(s, e, previous));
       frame.Some? && o.sha256(frame.value) == e.recordHash
  }

  function HashBefore(events: seq<Event>, i: nat): Option<bytes>
    requires i <= |events|
  {
    if i == 0 then None else Some(events[i - 1].recordHash)
  }

  function TimeBefore(created: bytes, events: seq<Event>, i: nat): bytes
    requires i <= |events|
  {
    if i == 0 then created else events[i - 1].at
  }

  function TotalSize(events: seq<Event>): nat {
    if events == [] then 0 else TotalSize(events[..|events| - 1]) + events[|events| - 1].size
  }

  predicate ChainOk(o: Oracle, s: Session, created: bytes, n: nat)
    requires n <= |s.events|
  {
    forall i :: 0 <= i < n ==>
      EventOk(o, s, i + 1, HashBefore(s.events, i), TimeBefore(created, s.events, i), s.events[i])
  }

  predicate TerminalOk(s: Session) {
    || (s.phase == Open && s.final == None && s.head == None && s.taint == None)
    || (s.phase == Sealed && s.final == Some(s.count) && s.events != [] && s.head == HashBefore(s.events, |s.events|) && s.taint == None)
  }

  /** The value of a field that must be there. */
  predicate Holds(o: Oracle, e: Event, f: Field, v: Value) {
    o.field(e.payload, f) == Some(v)
  }

  predicate Repeats(o: Oracle, e: Event, first: Event, f: Field) {
    o.field(e.payload, f).Some? && o.field(e.payload, f) == o.field(first.payload, f)
  }

  /** A sealed session ends with the close of its binding and its seal, which repeat what its first event says. */
  predicate SealOk(o: Oracle, s: Session) {
    s.phase == Sealed ==>
      && |s.events| >= 2
      && var first, close, seal := s.events[0], s.events[|s.events| - 2], s.events[|s.events| - 1];
         && close.kind == BINDING_CLOSED && seal.kind == SEAL_REQUESTED && close.at == seal.at
         && Holds(o, close, CloseReason, Text(CAPACITY_ROLLOVER)) && Repeats(o, close, first, BindingId)
         && Holds(o, seal, FinalSequence, Number(s.count))
         && Repeats(o, seal, first, EpochId) && Repeats(o, seal, first, ConsentVersion) && Repeats(o, seal, first, DisclosureDigest)
  }

  /** The first event belongs to the row's epoch, and the first two carry its opening time; a lone event is refused. */
  predicate OpeningOk(o: Oracle, s: Session) {
    && |s.events| >= 2
    && Holds(o, s.events[0], EpochId, Text(s.epoch)) && Holds(o, s.events[0], ConsentVersion, Number(s.version))
    && s.openedAt == s.events[0].at == s.events[1].at
  }

  lemma ChainAt(o: Oracle, s: Session, created: bytes, n: nat, i: nat)
    requires i < n <= |s.events| && ChainOk(o, s, created, n)
    ensures EventOk(o, s, i + 1, HashBefore(s.events, i), TimeBefore(created, s.events, i), s.events[i])
  {
    hide EventOk;
  }

  lemma ChainGrows(o: Oracle, s: Session, created: bytes, n: nat)
    requires n < |s.events| && ChainOk(o, s, created, n)
    ensures ChainOk(o, s, created, n + 1)
            <==> EventOk(o, s, n + 1, HashBefore(s.events, n), TimeBefore(created, s.events, n), s.events[n])
  {
    hide EventOk;
  }

  lemma ChainPrefix(o: Oracle, s: Session, created: bytes, n: nat)
    requires n <= |s.events| && !ChainOk(o, s, created, n)
    ensures !ChainOk(o, s, created, |s.events|)
  {
    hide EventOk;
  }

  lemma ChainStart(o: Oracle, s: Session, created: bytes)
    ensures ChainOk(o, s, created, 0) && TotalSize([]) == 0
  {
  }

  lemma TotalGrows(events: seq<Event>, i: nat)
    requires i < |events|
    ensures TotalSize(events[..i + 1]) == TotalSize(events[..i]) + events[i].size
  {
    assert events[..i + 1][..i] == events[..i];
  }

  /** A stored session that passes the loop and the aggregate, head, seal and opening checks after it. */
  predicate Accepted(o: Oracle, s: Session, created: bytes, maxEvents: nat) {
    && 1 <= |s.events| <= maxEvents
    && ChainOk(o, s, created, |s.events|)
    && s.count == |s.events| && s.size == TotalSize(s.events)
    && TerminalOk(s) && SealOk(o, s) && OpeningOk(o, s)
  }

  /** The loop of `_snapshot` over one session and the checks after it; `ok` stands for not raising. */
  method CheckSession(o: Oracle, s: Session, created: bytes, maxEvents: nat) returns (ok: bool)
    ensures ok <==> Accepted(o, s, created, maxEvents)
  {
    hide EventOk, Leq, ChainOk, TotalSize, SealOk, OpeningOk;
    if !(1 <= |s.events| <= maxEvents) {
      return false;
    }
    var previous: Option<bytes> := None;
    var previousTime := created;
    var total := 0;
    ChainStart(o, s, created);
    assert s.events[..0] == [];
    for i := 0 to |s.events|
      invariant previous == HashBefore(s.events, i) && previousTime == TimeBefore(created, s.events, i)
      invariant total == TotalSize(s.events[..i])
      invariant ChainOk(o, s, created, i)
    {
      var e := s.events[i];
      ChainGrows(o, s, created, i);
      TotalGrows(s.events, i);
      if !EventOk(o, s, i + 1, previous, previousTime, e) {
        ChainPrefix(o, s, created, i + 1);
        return false;
      }
      previous := Some(e.recordHash);
      previousTime := e.at;
      total := total + e.size;
    }
    assert s.events[..|s.events|] == s.events;
    if s.count != |s.events| || s.size != total {
      return false;
    }
    if !((s.phase == Open && s.final == None && s.head == None && s.taint == None)
         || (s.phase == Sealed && s.final == Some(s.count) && s.head == previous && s.taint == None)) {
      return false;
    }
    return SealOk(o, s) && OpeningOk(o, s);
  }

  // ---------- what acceptance says ----------

  /** Every accepted event time has 27 characters. */
  lemma TimesAreSpelled(o: Oracle, s: Session, created: bytes, maxEvents: nat, i: nat)
    requires Accepted(o, s, created, maxEvents) && i < |s.events|
    ensures |s.events[i].at| == 27
  {
    hide *;
    AcceptedStep(o, s, created, maxEvents, i);
    OkTimeIsSpelled(o, s, i + 1, HashBefore(s.events, i), TimeBefore(created, s.events, i), s.events[i]);
  }

  lemma OkTimeIsSpelled(o: Oracle, s: Session, ordinal: int, previous: Option<bytes>, previousTime: bytes, e: Event)
    requires EventOk(o, s, ordinal, previous, previousTime, e)
    ensures |e.at| == 27
  {
    hide IsUuid, IsDigest, Leq, Parts, Join;
  }

  lemma {:induction false} TimesBelow(o: Oracle, s: Session, created: bytes, maxEvents: nat, i: nat, j: nat)
    requires Accepted(o, s, created, maxEvents) && i <= j <= |s.events|
    ensures Leq(TimeBefore(created, s.events, i), TimeBefore(created, s.events, j))
    decreases j
  {
    hide Accepted;
    if i == j {
      LeqIsRising(TimeBefore(created, s.events, i), TimeBefore(created, s.events, i));
    } else {
      TimesBelow(o, s, created, maxEvents, i, j - 1);
      AcceptedStep(o, s, created, maxEvents, j - 1);
      LeqTransitive(TimeBefore(created, s.events, i), TimeBefore(created, s.events, j - 1), TimeBefore(created, s.events, j));
    }
  }

  lemma AcceptedStep(o: Oracle, s: Session, created: bytes, maxEvents: nat, i: nat)
    requires Accepted(o, s, created, maxEvents) && i < |s.events|
    ensures EventOk(o, s, i + 1, HashBefore(s.events, i), TimeBefore(created, s.events, i), s.events[i])
  {
    hide EventOk, TotalSize;
    ChainAt(o, s, created, |s.events|, i);
  }

  /**
   In an accepted session the times never fall: two of them are the same, or rise at their first difference;
   none is before the creation.
   */
  lemma TimesNeverFall(o: Oracle, s: Session, created: bytes, maxEvents: nat, i: nat, j: nat)
    requires Accepted(o, s, created, maxEvents) && i < j < |s.events|
    ensures var a, b := s.events[i].at, s.events[j].at;
            a == b || exists k :: 0 <= k < |a| && k < |b| && a[..k] == b[..k] && a[k] < b[k]
    ensures Rises(created, s.events[0].at)
  {
    hide Accepted, Leq;
    var a, b := s.events[i].at, s.events[j].at;
    TimesAreSpelled(o, s, created, maxEvents, i);
    TimesAreSpelled(o, s, created, maxEvents, j);
    TimesBelow(o, s, created, maxEvents, i + 1, j + 1);
    LeqIsRising(a, b);
    assert a <= b ==> a == b;
    TimesBelow(o, s, created, maxEvents, 0, 1);
    LeqIsRising(created, s.events[0].at);
  }

  function PayloadBytes(events: seq<Event>): nat {
    if events == [] then 0 else PayloadBytes(events[..|events| - 1]) + |events[|events| - 1].payload|
  }

  lemma {:induction false} SizesArePayloads(events: seq<Event>)
    requires forall i :: 0 <= i < |events| ==> events[i].size == |events[i].payload|
    ensures TotalSize(events) == PayloadBytes(events)
  {
    if events != [] {
      SizesArePayloads(events[..|events| - 1]);
    }
  }

  /** One event as it has to be, told of itself and the event before it alone. */
  ghost predicate EventInOrder(o: Oracle, s: Session, created: bytes, i: nat)
    requires i < |s.events|
  {
    var e := s.events[i];
    var previous := if i == 0 then None else Some(s.events[i - 1].recordHash);
    && e.sequence == i + 1 && e.previousHash == previous && Rises(if i == 0 then created else s.events[i - 1].at, e.at)
    && o.isUtc(e.at) && o.isCanonical(e.payload) && |e.payload| == e.size && o.sha256(e.payload) == e.payloadHash
    && o.isSnapshot(Envelope(s.installation, s.producer, s.id, e.eventId, i + 1, e.kind, e.payload))
    && var r := Record(s.installation, s.producer, e.eventId, s.id, i + 1, e.kind, e.at, e.payloadHash, previous);
       Valid(o.vocabulary, r) && o.sha256(Join(Parts(o.vocabulary, r))) == e.recordHash
  }

  lemma EventOkIsInOrder(o: Oracle, s: Session, created: bytes, i: nat)
    requires i < |s.events|
    ensures EventOk(o, s, i + 1, HashBefore(s.events, i), TimeBefore(created, s.events, i), s.events[i])
            <==> EventInOrder(o, s, created, i)
  {
    LeqIsRising(TimeBefore(created, s.events, i), s.events[i].at);
    hide Leq, Rises, Valid, Parts, Join;
  }

  /**
   What is accepted, told without the loop: each event follows from the one before it, the totals are those of
   the events, and an open row has no head while a sealed one has that of its last event.
   */
  lemma AcceptedMeans(o: Oracle, s: Session, created: bytes, maxEvents: nat)
    ensures Accepted(o, s, created, maxEvents)
            <==> && 2 <= |s.events| <= maxEvents && s.count == |s.events| && s.size == PayloadBytes(s.events)
                 && (forall i :: 0 <= i < |s.events| ==> EventInOrder(o, s, created, i))
                 && s.taint == None
                 && ((s.phase == Open && s.final == None && s.head == None)
                     || (s.phase == Sealed && s.final == Some(|s.events|) && s.head == Some(s.events[|s.events| - 1].recordHash)))
                 && SealOk(o, s) && OpeningOk(o, s)
  {
    hide EventOk, EventInOrder, SealOk, TotalSize, PayloadBytes;
    assert OpeningOk(o, s) ==> |s.events| >= 2;
    hide OpeningOk;
    forall i | 0 <= i < |s.events|
      ensures EventOk(o, s, i + 1, HashBefore(s.events, i), TimeBefore(created, s.events, i), s.events[i])
              <==> EventInOrder(o, s, created, i)
      ensures EventInOrder(o, s, created, i) ==> s.events[i].size == |s.events[i].payload|
    {
      EventOkIsInOrder(o, s, created, i);
      InOrderHasSize(o, s, created, i);
    }
    if forall i :: 0 <= i < |s.events| ==> EventInOrder(o, s, created, i) {
      SizesArePayloads(s.events);
    }
  }

  lemma InOrderHasSize(o: Oracle, s: Session, created: bytes, i: nat)
    requires i < |s.events|
    ensures EventInOrder(o, s, created, i) ==> s.events[i].size == |s.events[i].payload|
  {
    hide Rises, Valid, Parts, Join;
  }

  /** What a sealed session must end with, in the words of its payloads. */
  lemma SealInWords(o: Oracle, s: Session)
    requires |s.events| >= 2 && s.phase == Sealed
    ensures var n, first := |s.events|, s.events[0].payload;
            var close, seal := s.events[n - 2], s.events[n - 1];
            SealOk(o, s)
            <==> && close.kind == Literal("binding_closed") && seal.kind == Literal("session_seal_requested") && close.at == seal.at
                 && o.field(close.payload, CloseReason) == Some(Text(Literal("capacity_rollover")))
                 && o.field(close.payload, BindingId).Some? && o.field(close.payload, BindingId) == o.field(first, BindingId)
                 && o.field(seal.payload, FinalSequence) == Some(Number(s.count))
                 && forall f :: f in {EpochId, ConsentVersion, DisclosureDigest} ==>
                      o.field(seal.payload, f).Some? && o.field(seal.payload, f) == o.field(first, f)
  {
    hide Literal;
    WordsSpelled();
    var first, seal := s.events[0], s.events[|s.events| - 1];
    assert (forall f :: f in {EpochId, ConsentVersion, DisclosureDigest} ==> Repeats(o, seal, first, f))
      <==> Repeats(o, seal, first, EpochId) && Repeats(o, seal, first, ConsentVersion) && Repeats(o, seal, first, DisclosureDigest);
  }

  lemma WordsSpelled()
    ensures BINDING_CLOSED == Literal("binding_closed") && SEAL_REQUESTED == Literal("session_seal_requested")
    ensures CAPACITY_ROLLOVER == Literal("capacity_rollover")
  {
  }

  /** What every session must begin with. */
  lemma OpeningInWords(o: Oracle, s: Session)
    requires |s.events| >= 2
    ensures OpeningOk(o, s)
            <==> && o.field(s.events[0].payload, EpochId) == Some(Text(s.epoch))
                 && o.field(s.events[0].payload, ConsentVersion) == Some(Number(s.version))
                 && s.events[0].at == s.openedAt && s.events[1].at == s.openedAt
  {
  }

  // ---------- what a head fixes ----------

  function FrameAt(o: Oracle, s: Session, i: nat): Option<bytes>
    requires i < |s.events|
  {
    Frame(o.vocabulary, RecordOf(s, s.events[i], HashBefore(s.events, i)))
  }

  /** A byte string that is hashed when the session is checked: a payload or a frame. */
  ghost predicate Hashed(o: Oracle, s: Session, x: bytes) {
    exists i :: 0 <= i < |s.events| && (x == s.events[i].payload || FrameAt(o, s, i) == Some(x))
  }

  /** No two different strings hashed in the two sessions have the same hash. */
  ghost predicate NoCollision(o: Oracle, s: Session, t: Session) {
    forall x, y :: Hashed(o, s, x) && Hashed(o, t, y) && o.sha256(x) == o.sha256(y) ==> x == y
  }

  lemma HashedAt(o: Oracle, s: Session, i: nat)
    requires i < |s.events|
    ensures Hashed(o, s, s.events[i].payload)
    ensures FrameAt(o, s, i).Some? ==> Hashed(o, s, FrameAt(o, s, i).value)
  {
    hide FrameAt;
  }

  /** Equal record hashes at two places mean equal sequence numbers, equal places and equal records. */
  lemma HashFixesRecord(o: Oracle, s: Session, t: Session, created: bytes, created': bytes, i: nat, j: nat)
    requires NoCollision(o, s, t) && Bounded(o.vocabulary)
    requires i < |s.events| && j < |t.events|
    requires EventOk(o, s, i + 1, HashBefore(s.events, i), TimeBefore(created, s.events, i), s.events[i])
    requires EventOk(o, t, j + 1, HashBefore(t.events, j), TimeBefore(created', t.events, j), t.events[j])
    requires s.events[i].recordHash == t.events[j].recordHash
    ensures i == j && RecordOf(s, s.events[i], HashBefore(s.events, i)) == RecordOf(t, t.events[j], HashBefore(t.events, j))
    ensures s.events[i] == t.events[j] && HashBefore(s.events, i) == HashBefore(t.events, j)
    ensures FrameAt(o, s, i) == FrameAt(o, t, j)
  {
    hide Hashed, Frame;
    HashedAt(o, s, i);
    HashedAt(o, t, j);
    var r, q := RecordOf(s, s.events[i], HashBefore(s.events, i)), RecordOf(t, t.events[j], HashBefore(t.events, j));
    FrameInjective(o.vocabulary, r, q);
    assert r.sequence == q.sequence && r.payloadHash == q.payloadHash;
    assert o.sha256(s.events[i].payload) == o.sha256(t.events[j].payload);
  }

  lemma {:induction false} HistoryBelow(o: Oracle, s: Session, t: Session, created: bytes, created': bytes, n: nat)
    requires NoCollision(o, s, t) && Bounded(o.vocabulary)
    requires n <= |s.events| && n <= |t.events|
    requires ChainOk(o, s, created, |s.events|) && ChainOk(o, t, created', |t.events|)
    requires HashBefore(s.events, n) == HashBefore(t.events, n)
    ensures s.events[..n] == t.events[..n]
    ensures forall i :: 0 <= i < n ==> FrameAt(o, s, i) == FrameAt(o, t, i)
  {
    hide EventOk, FrameAt, ChainOk, NoCollision, Bounded;
    if n > 0 {
      ChainAt(o, s, created, |s.events|, n - 1);
      ChainAt(o, t, created', |t.events|, n - 1);
      HashFixesRecord(o, s, t, created, created', n - 1, n - 1);
      HistoryBelow(o, s, t, created, created', n - 1);
      assert s.events[..n] == s.events[..n - 1] + [s.events[n - 1]];
      assert t.events[..n] == t.events[..n - 1] + [t.events[n - 1]];
    }
  }

  /**
   Two sealed sessions that pass the loop and have equal heads have the same identity and the same
   events, event by event: frames, record hashes and payload bytes.
   */
  lemma SealedHeadFixesHistory(o: Oracle, s: Session, t: Session, created: bytes, created': bytes, maxEvents: nat)
    requires NoCollision(o, s, t) && Bounded(o.vocabulary)
    requires Accepted(o, s, created, maxEvents) && Accepted(o, t, created', maxEvents)
    requires s.phase == Sealed && t.phase == Sealed && s.head == t.head
    ensures s.events == t.events
    ensures s.installation == t.installation && s.producer == t.producer && s.id == t.id
    ensures forall i :: 0 <= i < |s.events| ==> i < |t.events| && FrameAt(o, s, i) == FrameAt(o, t, i)
  {
    hide EventOk, FrameAt, ChainOk, NoCollision, Bounded, TotalSize;
    var m, n := |s.events|, |t.events|;
    ChainAt(o, s, created, m, m - 1);
    ChainAt(o, t, created', n, n - 1);
    HashFixesRecord(o, s, t, created, created', m - 1, n - 1);
    HistoryBelow(o, s, t, created, created', m);
    assert s.events[..m] == s.events && t.events[..m] == t.events;
  }

  /**
   Equal heads fix nothing for open sessions: their stored head is None, and dropping the last event of
   any accepted open session of three events or more leaves an accepted open session with the same head.
   */
  lemma OpenHeadFixesNothing(o: Oracle, s: Session, created: bytes, maxEvents: nat)
    requires Accepted(o, s, created, maxEvents) && s.phase == Open && |s.events| >= 3
    ensures var front := s.events[..|s.events| - 1];
            var shorter := s.(events := front, count := |front|, size := TotalSize(front));
            Accepted(o, shorter, created, maxEvents) && shorter.head == s.head && shorter.events != s.events
  {
    hide EventOk;
    var front := s.events[..|s.events| - 1];
    var shorter := s.(events := front, count := |front|, size := TotalSize(front));
    forall i | 0 <= i < |front|
      ensures EventOk(o, shorter, i + 1, HashBefore(front, i), TimeBefore(created, front, i), front[i])
    {
      SameEventOk(o, s, shorter, created, i);
    }
  }

  lemma SameEventOk(o: Oracle, s: Session, t: Session, created: bytes, i: nat)
    requires s.installation == t.installation && s.producer == t.producer && s.id == t.id
    requires i < |t.events| <= |s.events| && t.events == s.events[..|t.events|]
    requires EventOk(o, s, i + 1, HashBefore(s.events, i), TimeBefore(created, s.events, i), s.events[i])
    ensures EventOk(o, t, i + 1, HashBefore(t.events, i), TimeBefore(created, t.events, i), t.events[i])
  {
  }

  /** For accepted sessions a shared head fixes the history exactly when there is a head: when they are sealed. */
  lemma HeadExistsIffSealed(o: Oracle, s: Session, created: bytes, maxEvents: nat)
    requires Accepted(o, s, created, maxEvents)
    ensures s.head.Some? <==> s.phase == Sealed
  {
  }

  /** Short of a hash collision, no other accepted session with the same stored head has a different history. */
  ghost predicate HeadFixesHistory(o: Oracle, s: Session, maxEvents: nat) {
    forall t, created ::
      Accepted(o, t, created, maxEvents) && t.head == s.head && NoCollision(o, s, t) ==> t.events == s.events
  }

  /** The session with another identifier on its last event, hashed anew. */
  function Respelled(o: Oracle, s: Session, id: bytes): Session
    requires s.events != []
  {
    var n := |s.events| - 1;
    var e := s.events[n].(eventId := id);
    var frame := Frame(o.vocabulary, RecordOf(s, e, e.previousHash));
    s.(events := s.events[n := e.(recordHash := if frame.Some? then o.sha256(frame.value) else [])])
  }

  /** Another identifier for the last event that the parser takes and whose frame shares its hash with nothing hashed so far. */
  ghost predicate Respells(o: Oracle, s: Session, id: bytes)
    requires s.events != []
  {
    var n := |s.events| - 1;
    var e := s.events[n].(eventId := id);
    && IsUuid(id) && id != s.events[n].eventId && o.isSnapshot(EnvelopeOf(s, e))
    && var frame := Frame(o.vocabulary, RecordOf(s, e, e.previousHash));
       frame.Some? ==> forall x :: Hashed(o, s, x) ==> o.sha256(x) != o.sha256(frame.value)
  }

  /** An open session keeps its head, and its acceptance, when its last event gets such an identifier. */
  lemma OpenHeadFixesNoIdentifier(o: Oracle, s: Session, created: bytes, maxEvents: nat, id: bytes)
    requires Accepted(o, s, created, maxEvents) && s.phase == Open && Respells(o, s, id)
    ensures var t := Respelled(o, s, id);
            Accepted(o, t, created, maxEvents) && t.head == s.head && t.events != s.events
  {
    hide EventOk, TotalSize, ChainOk, Respells;
    RespelledChain(o, s, created, id);
    RespelledRow(o, s, id);
  }

  /** Respelling changes one event in its identifier and its hash. */
  lemma RespelledRow(o: Oracle, s: Session, id: bytes)
    requires s.events != []
    ensures var t, n := Respelled(o, s, id), |s.events| - 1;
            && t == s.(events := t.events) && |t.events| == n + 1 && (forall i :: 0 <= i < n ==> t.events[i] == s.events[i])
            && t.events[n] == s.events[n].(eventId := id, recordHash := t.events[n].recordHash)
            && (Respells(o, s, id) ==> t.events != s.events) && TotalSize(t.events) == TotalSize(s.events)
  {
    hide Frame;
    SameSizes(s.events, Respelled(o, s, id).events);
  }

  lemma RespelledChain(o: Oracle, s: Session, created: bytes, id: bytes)
    requires s.events != [] && ChainOk(o, s, created, |s.events|) && Respells(o, s, id)
    ensures var t := Respelled(o, s, id); ChainOk(o, t, created, |t.events|)
  {
    hide EventOk, Respells, Respelled, HashBefore, TimeBefore;
    var t := Respelled(o, s, id);
    RespelledRow(o, s, id);
    forall i | 0 <= i < |t.events|
      ensures EventOk(o, t, i + 1, HashBefore(t.events, i), TimeBefore(created, t.events, i), t.events[i])
    {
      RespelledAt(o, s, created, id, i);
    }
  }

  lemma RespelledAt(o: Oracle, s: Session, created: bytes, id: bytes, i: nat)
    requires i < |s.events| && Respells(o, s, id)
    requires EventOk(o, s, i + 1, HashBefore(s.events, i), TimeBefore(created, s.events, i), s.events[i])
    ensures var t := Respelled(o, s, id);
            EventOk(o, t, i + 1, HashBefore(t.events, i), TimeBefore(created, t.events, i), t.events[i])
  {
    hide EventOk, Respells, Respelled, TotalSize;
    var t := Respelled(o, s, id);
    RespelledRow(o, s, id);
    assert HashBefore(t.events, i) == HashBefore(s.events, i) && TimeBefore(created, t.events, i) == TimeBefore(created, s.events, i);
    if i < |s.events| - 1 {
      SameRowEventOk(o, s, t, i + 1, HashBefore(s.events, i), TimeBefore(created, s.events, i), s.events[i]);
    } else {
      RespelledEventOk(o, s, created, id);
    }
  }

  lemma SameRowEventOk(o: Oracle, s: Session, t: Session, ordinal: int, previous: Option<bytes>, previousTime: bytes, e: Event)
    requires s.installation == t.installation && s.producer == t.producer && s.id == t.id
    requires EventOk(o, s, ordinal, previous, previousTime, e)
    ensures EventOk(o, t, ordinal, previous, previousTime, e)
  {
  }

  lemma RespelledEventOk(o: Oracle, s: Session, created: bytes, id: bytes)
    requires s.events != [] && Respells(o, s, id)
    requires var n := |s.events| - 1;
             EventOk(o, s, n + 1, HashBefore(s.events, n), TimeBefore(created, s.events, n), s.events[n])
    ensures var t, n := Respelled(o, s, id), |s.events| - 1;
            EventOk(o, t, n + 1, HashBefore(s.events, n), TimeBefore(created, s.events, n), t.events[n])
  {
    hide IsUuid, Parts, Join, IsTimeSpelling, IsDigest, Leq;
    var n := |s.events| - 1;
    var e := s.events[n].(eventId := id);
    assert Valid(o.vocabulary, RecordOf(s, e, e.previousHash));
  }

  lemma {:induction false} SameSizes(events: seq<Event>, others: seq<Event>)
    requires |events| == |others| && forall i :: 0 <= i < |events| ==> events[i].size == others[i].size
    ensures TotalSize(events) == TotalSize(others)
  {
    if events != [] {
      SameSizes(events[..|events| - 1], others[..|others| - 1]);
    }
  }

  lemma RespelledCollides(o: Oracle, s: Session, id: bytes)
    requires s.events != [] && NoCollision(o, s, s) && Respells(o, s, id)
    requires s.events[|s.events| - 1].previousHash == HashBefore(s.events, |s.events| - 1)
    ensures NoCollision(o, s, Respelled(o, s, id))
  {
    hide Hashed, Respells, Respelled, HashBefore;
    forall x, y | Hashed(o, s, x) && Hashed(o, Respelled(o, s, id), y) && o.sha256(x) == o.sha256(y) ensures x == y {
      RespelledPair(o, s, id, x, y) by { hide NoCollision; }
    }
  }

  lemma RespelledPair(o: Oracle, s: Session, id: bytes, x: bytes, y: bytes)
    requires s.events != [] && NoCollision(o, s, s) && Respells(o, s, id)
    requires s.events[|s.events| - 1].previousHash == HashBefore(s.events, |s.events| - 1)
    requires Hashed(o, s, x) && Hashed(o, Respelled(o, s, id), y) && o.sha256(x) == o.sha256(y)
    ensures x == y
  {
    hide *;
    RespelledHashes(o, s, id, y);
    if Hashed(o, s, y) {
      Apart(o, s, x, y);
    } else {
      RespelledApart(o, s, id, x, y);
    }
  }

  lemma Apart(o: Oracle, s: Session, x: bytes, y: bytes)
    requires NoCollision(o, s, s) && Hashed(o, s, x)
    ensures Hashed(o, s, y) && o.sha256(x) == o.sha256(y) ==> x == y
  {
    hide Hashed;
  }

  /** What the respelled session hashes was hashed before, but for the new frame. */
  lemma RespelledHashes(o: Oracle, s: Session, id: bytes, y: bytes)
    requires s.events != [] && Hashed(o, Respelled(o, s, id), y)
    ensures Hashed(o, s, y) || FrameAt(o, Respelled(o, s, id), |s.events| - 1) == Some(y)
  {
    hide Frame;
    var t, n := Respelled(o, s, id), |s.events| - 1;
    var i :| 0 <= i < |t.events| && (y == t.events[i].payload || FrameAt(o, t, i) == Some(y));
    assert t.events[i].payload == s.events[i].payload;
    if i < n {
      assert t.events[i] == s.events[i] && (i > 0 ==> t.events[i - 1] == s.events[i - 1]);
      assert FrameAt(o, t, i) == FrameAt(o, s, i);
    }
  }

  lemma RespelledApart(o: Oracle, s: Session, id: bytes, x: bytes, y: bytes)
    requires s.events != [] && Respells(o, s, id) && Hashed(o, s, x)
    requires FrameAt(o, Respelled(o, s, id), |s.events| - 1) == Some(y)
    requires s.events[|s.events| - 1].previousHash == HashBefore(s.events, |s.events| - 1)
    ensures o.sha256(x) != o.sha256(y)
  {
    RespelledFrame(o, s, id);
    hide Frame, Hashed, IsUuid, FrameAt;
  }

  lemma RespelledFrame(o: Oracle, s: Session, id: bytes)
    requires s.events != []
    ensures var n := |s.events| - 1;
            var e := s.events[n].(eventId := id);
            FrameAt(o, Respelled(o, s, id), n) == Frame(o.vocabulary, RecordOf(s, e, HashBefore(s.events, n)))
  {
    hide Frame;
    var n := |s.events| - 1;
    assert n > 0 ==> Respelled(o, s, id).events[n - 1] == s.events[n - 1];
  }

  /**
   The head fixes the history exactly when the session is sealed. An open session of two events cannot be
   cut; there the hash must leave one more identifier for its last event.
   */
  lemma HeadFixesHistoryIffSealed(o: Oracle, s: Session, created: bytes, maxEvents: nat)
    requires Bounded(o.vocabulary) && NoCollision(o, s, s)
    requires Accepted(o, s, created, maxEvents)
    requires s.phase == Open && |s.events| == 2 ==> exists id :: Respells(o, s, id)
    ensures HeadFixesHistory(o, s, maxEvents) <==> s.phase == Sealed
  {
    hide Accepted, NoCollision, Bounded, TotalSize, Respells, Respelled;
    HeadExistsIffSealed(o, s, created, maxEvents);
    if s.phase == Sealed {
      forall t, created' | Accepted(o, t, created', maxEvents) && t.head == s.head && NoCollision(o, s, t)
        ensures t.events == s.events
      {
        HeadExistsIffSealed(o, t, created', maxEvents);
        SealedHeadFixesHistory(o, s, t, created, created', maxEvents);
      }
    } else {
      OnlyOpenOrSealed(o, s, created, maxEvents);
      if |s.events| == 2 {
        var id :| Respells(o, s, id);
        OpenHeadFixesNoIdentifier(o, s, created, maxEvents, id);
        ChainedToItsFirst(o, s, created, maxEvents);
        RespelledCollides(o, s, id);
      } else {
        OpenHeadFixesNothing(o, s, created, maxEvents);
        var front := s.events[..|s.events| - 1];
        FrontCollides(o, s, s.(events := front, count := |front|, size := TotalSize(front)));
      }
    }
  }

  lemma FrontCollides(o: Oracle, s: Session, t: Session)
    requires NoCollision(o, s, s) && |t.events| <= |s.events| && t.events == s.events[..|t.events|]
    requires s.installation == t.installation && s.producer == t.producer && s.id == t.id
    ensures NoCollision(o, s, t)
  {
    hide Frame;
    forall x | Hashed(o, t, x) ensures Hashed(o, s, x) {
      var i :| 0 <= i < |t.events| && (x == t.events[i].payload || FrameAt(o, t, i) == Some(x));
      assert t.events[i] == s.events[i] && FrameAt(o, t, i) == FrameAt(o, s, i);
    }
    hide Hashed;
  }

  lemma ChainedToItsFirst(o: Oracle, s: Session, created: bytes, maxEvents: nat)
    requires Accepted(o, s, created, maxEvents)
    ensures s.events != [] && s.events[|s.events| - 1].previousHash == HashBefore(s.events, |s.events| - 1)
  {
    ChainAt(o, s, created, |s.events|, |s.events| - 1);
    hide ChainOk, TotalSize;
  }

  lemma OnlyOpenOrSealed(o: Oracle, s: Session, created: bytes, maxEvents: nat)
    requires Accepted(o, s, created, maxEvents)
    ensures (s.phase == Open || s.phase == Sealed) && |s.events| >= 2
  {
  }
}
