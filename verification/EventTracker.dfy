/** Which turn a terminal event settles: the identity tracker of the native typed journey. */
module EventTracker {
  import opened Bytes

  datatype Pair = Pair(turn: string, generation: int)

  datatype Correlation = Correlation(sequence: int, binding: int)

  datatype Role = User | Assistant | OtherRole

  datatype Kind = TaskState | TaskResult | TranscriptFinal | InputAdmitted | FirstToken | FirstPlayable
                | TextGenerated | TurnCompleted | TurnInterrupted | OtherKind

  /** One public event; `task` is None when the task fields are malformed. */
  datatype Event = Event(sequence: int, kind: Kind, clock: real, size: nat, turn: Option<string>, generation: Option<int>,
                         role: Role, text: Option<string>, inputSequence: Option<int>, binding: Option<int>,
                         task: Option<(string, string)>)

  datatype Outcome = Pending | Completed | Interrupted

  datatype Row = Row(name: string, inputSequence: int, outcome: Outcome, assistantSegments: nat, deliveredSegments: nat,
                     firstToken: Option<real>, firstPlayable: Option<real>, tokenToPlayable: Option<real>, unbound: int)

  datatype Marks = Marks(token: Option<real>, playable: Option<real>)

  datatype Interruption = Interruption(pair: Pair, correlation: Option<Correlation>)

  /**
   The tracker. The last row is the current turn. The last field only serves the statements: it keeps the
   pairs that were bound to the earlier turns.
   */
  datatype State = State(cursor: int, rows: seq<Row>, pair: Option<Pair>, seen: set<Pair>, markers: map<Pair, Marks>,
                         tasks: map<string, string>, text: string, userSeen: bool, admitted: bool,
                         admittedInput: Option<Correlation>, priorSeen: set<Pair>, interruptions: seq<Interruption>,
                         started: real, pairs: seq<Option<Pair>>)

  const TURNS := 12
  const TASKS := 12
  const IDENTITIES := 128
  const BATCH := 256
  const EVENT_BYTES := 32768
  const WIDEST := 9007199254740992

  function Initial(): State {
    State(0, [], None, {}, map[], map[], "", false, false, None, {}, [], 0.0, [])
  }

  function ValidPair(e: Event): Option<Pair> {
    if e.turn.Some? && e.generation.Some? && e.generation.value > 0 then Some(Pair(e.turn.value, e.generation.value)) else None
  }

  /** `_input_correlation`. */
  function InputCorrelation(e: Event): Option<Correlation> {
    if e.inputSequence.Some? && e.binding.Some? && 1 <= e.inputSequence.value < WIDEST && 1 <= e.binding.value < WIDEST
    then Some(Correlation(e.inputSequence.value, e.binding.value)) else None
  }

  function Current(s: State): Row
    requires s.rows != []
  {
    s.rows[|s.rows| - 1]
  }

  function WithRow(s: State, r: Row): State
    requires s.rows != []
  {
    s.(rows := s.rows[|s.rows| - 1 := r])
  }

  /** `begin`; None when it raises. */
  function Begin(s: State, name: string, sequence: int, text: string, now: real): Option<State> {
    if |s.rows| >= TURNS then None
    else Some(s.(rows := s.rows + [Row(name, sequence, Pending, 0, 0, None, None, None, 0)],
                 pairs := if s.rows == [] then [] else s.pairs + [s.pair],
                 pair := None, text := text, userSeen := false, admitted := false, admittedInput := None,
                 priorSeen := s.seen, interruptions := [], started := now))
  }

  // ---------- one event, in the order of the code ----------

  function Identify(s: State, e: Event): Option<State> {
    if e.sequence == s.cursor + 1 && e.clock >= 0.0 && e.size <= EVENT_BYTES then Some(s.(cursor := e.sequence)) else None
  }

  function TrackTask(s: State, e: Event): Option<State> {
    if e.kind != TaskState && e.kind != TaskResult then Some(s)
    else if e.task.None? || (e.task.value.0 !in s.tasks && |s.tasks| >= TASKS) then None
    else Some(s.(tasks := s.tasks[e.task.value.0 := e.task.value.1]))
  }

  function Admit(s: State, e: Event): Option<State>
    requires s.rows != []
  {
    if e.kind == TranscriptFinal && e.role == User then
      if e.text == Some(s.text) then Some(s.(userSeen := true)) else None
    else if e.kind == InputAdmitted then
      if e.inputSequence == Some(Current(s).inputSequence) then
        Some(s.(admittedInput := if s.admitted then s.admittedInput else InputCorrelation(e), admitted := true))
      else None
    else Some(s)
  }

  function MarksAt(s: State, p: Pair): Marks {
    if p in s.markers then s.markers[p] else Marks(None, None)
  }

  function Mark(s: State, e: Event): Option<State> {
    var pair := ValidPair(e);
    if (e.kind != FirstToken && e.kind != FirstPlayable) || pair.None? then Some(s)
    else if pair.value !in s.markers && |s.markers| >= IDENTITIES then None
    else
      var m := MarksAt(s, pair.value);
      Some(s.(markers := s.markers[pair.value :=
                if e.kind == FirstToken then m.(token := if m.token.Some? then m.token else Some(e.clock))
                else m.(playable := if m.playable.Some? then m.playable else Some(e.clock))]))
  }

  function Bind(s: State, e: Event): State {
    var pair := ValidPair(e);
    if e.kind == FirstToken && s.pair.None? && s.userSeen && s.admitted && pair.Some? && pair.value !in s.seen
    then s.(pair := pair) else s
  }

  function See(s: State, e: Event): Option<State> {
    if ValidPair(e).Some? && (e.kind == TextGenerated || IsTerminal(e)) then
      var seen := s.seen + {ValidPair(e).value};
      if |seen| <= IDENTITIES then Some(s.(seen := seen)) else None
    else Some(s)
  }

  predicate IsTerminal(e: Event) {
    e.kind == TurnCompleted || e.kind == TurnInterrupted
  }

  predicate Holds(interruptions: seq<Interruption>, p: Pair) {
    exists i :: 0 <= i < |interruptions| && interruptions[i].pair == p
  }

  function Settle(s: State, e: Event): Option<State>
    requires s.rows != []
  {
    var pair, row := ValidPair(e), Current(s);
    if !IsTerminal(e) then Some(s)
    else if pair.Some? && pair == s.pair then
      Some(if row.outcome != Pending then s
           else WithRow(s, row.(outcome := if e.kind == TurnCompleted then Completed else Interrupted)))
    else if row.unbound >= IDENTITIES then None
    else
      var t := WithRow(s, row.(unbound := row.unbound + 1));
      if pair.Some? && e.kind == TurnInterrupted then
        if Holds(s.interruptions, pair.value) then Some(t)
        else if |s.interruptions| >= IDENTITIES then None
        else Some(t.(interruptions := s.interruptions + [Interruption(pair.value, InputCorrelation(e))]))
      else Some(t)
  }

  /** An interruption that carries this turn's own admitted input and no earlier turn's pair. */
  predicate Candidate(s: State, i: Interruption) {
    && s.admittedInput.Some? && i.correlation == s.admittedInput && i.pair !in s.priorSeen
    && (s.pair.None? || s.pair == Some(i.pair))
  }

  /** The place of the first candidate. */
  function FirstCandidate(s: State, from: nat): (r: Option<nat>)
    requires from <= |s.interruptions|
    ensures r.Some? ==> from <= r.value < |s.interruptions| && Candidate(s, s.interruptions[r.value])
    ensures r.None? ==> forall i :: from <= i < |s.interruptions| ==> !Candidate(s, s.interruptions[i])
    decreases |s.interruptions| - from
  {
    if from == |s.interruptions| then None
    else if Candidate(s, s.interruptions[from]) then Some(from)
    else FirstCandidate(s, from + 1)
  }

  /** `_reconcile_interruptions`. */
  function Reconcile(s: State): (r: State)
    requires s.rows != []
    ensures r.rows != []
  {
    var row, found := Current(s), FirstCandidate(s, 0);
    if row.outcome != Pending || found.None? then s
    else WithRow(s, row.(outcome := Interrupted, unbound := row.unbound - 1))
         .(pair := Some(s.interruptions[found.value].pair))
  }

  /** The timing columns, from a pair's marks. */
  function Timed(r: Row, m: Marks, started: real): Row {
    var a := if m.token.Some? && m.token.value >= started then r.(firstToken := Some(m.token.value - started)) else r;
    var b := if m.playable.Some? && m.playable.value >= started then a.(firstPlayable := Some(m.playable.value - started)) else a;
    if m.token.Some? && m.playable.Some? && m.playable.value >= m.token.value
    then b.(tokenToPlayable := Some(m.playable.value - m.token.value)) else b
  }

  function Project(s: State, e: Event): State
    requires s.rows != []
  {
    var row := Current(s);
    if ValidPair(e).None? || ValidPair(e) != s.pair then s
    else
      var counted := if e.kind == TextGenerated then row.(assistantSegments := row.assistantSegments + 1)
                     else if e.kind == TranscriptFinal && e.role == Assistant then row.(deliveredSegments := row.deliveredSegments + 1)
                     else row;
      WithRow(s, Timed(counted, MarksAt(s, s.pair.value), s.started))
  }

  /** From a state in which the event is identified and its input checked, through settling. */
  function Attribute(s: State, e: Event): (r: Option<State>)
    requires s.rows != []
    ensures r.Some? ==> r.value.rows != []
  {
    var marked := Mark(s, e);
    if marked.None? then None
    else
      var noticed := See(Bind(marked.value, e), e);
      if noticed.None? then None else Settle(noticed.value, e)
  }

  /** One event of `consume`; None when it raises. */
  function Consume(s: State, e: Event): Option<State> {
    var identified := Identify(s, e);
    if identified.None? then None
    else
      var tracked := TrackTask(identified.value, e);
      if tracked.None? then None
      else if s.rows == [] then
        Some(if ValidPair(e).Some? then tracked.value.(seen := tracked.value.seen + {ValidPair(e).value}) else tracked.value)
      else
        var admitted := Admit(tracked.value, e);
        if admitted.None? then None
        else
          var settled := Attribute(admitted.value, e);
          if settled.None? then None else Some(Project(Reconcile(settled.value), e))
  }

  datatype Input = BeginTurn(name: string, sequence: int, text: string, now: real) | Receive(event: Event)

  function Next(s: State, i: Input): Option<State> {
    match i
    case BeginTurn(name, sequence, text, now) => Begin(s, name, sequence, text, now)
    case Receive(e) => Consume(s, e)
  }

  /** The tracker after a run of turns and events; None when something raised. */
  function After(inputs: seq<Input>): Option<State> {
    if inputs == [] then Some(Initial())
    else
      var before := After(inputs[..|inputs| - 1]);
      if before.None? then None else Next(before.value, inputs[|inputs| - 1])
  }

  // ---------- the invariant ----------

  /** The pair bound to a turn, whether it is over or current. */
  function BoundPair(s: State, turn: nat): Option<Pair>
    requires turn < |s.rows| && |s.pairs| == |s.rows| - 1
  {
    if turn < |s.pairs| then s.pairs[turn] else s.pair
  }

  predicate Settled(s: State, turn: nat)
    requires turn < |s.rows|
  {
    s.rows[turn].outcome != Pending
  }

  /** A turn's pair was unseen when the turn began, and a settled turn's pair is seen. */
  predicate PairsOk(s: State) {
    && s.priorSeen <= s.seen
    && |s.pairs| == (if s.rows == [] then 0 else |s.rows| - 1)
    && (s.pair.Some? ==> s.rows != [] && s.pair.value !in s.priorSeen)
    && (s.rows != [] && Current(s).outcome != Pending ==> s.pair.Some? && s.pair.value in s.seen)
    && (forall i :: 0 <= i < |s.interruptions| ==> s.interruptions[i].pair in s.seen)
  }

  predicate EarlierOk(s: State) {
    && |s.pairs| == (if s.rows == [] then 0 else |s.rows| - 1)
    && (forall i :: 0 <= i < |s.pairs| && Settled(s, i) ==> s.pairs[i].Some? && s.pairs[i].value in s.priorSeen)
    && (forall i, j :: 0 <= i < j < |s.pairs| && Settled(s, i) && s.pairs[j].Some? ==> s.pairs[i] != s.pairs[j])
  }

  /** A pending turn has counted every interruption that it remembers, and an unbound one has no times. */
  predicate CountsOk(s: State) {
    s.rows != [] ==>
      && Current(s).unbound >= 0
      && (Current(s).outcome == Pending ==> Current(s).unbound >= |s.interruptions|)
      && (s.pair.None? ==> Untimed(Current(s)))
  }

  predicate Untimed(r: Row) {
    r.firstToken.None? && r.firstPlayable.None? && r.tokenToPlayable.None?
  }

  /** Nothing is left to reconcile in a pending turn. */
  predicate QuietOk(s: State) {
    s.rows != [] && Current(s).outcome == Pending ==> FirstCandidate(s, 0).None?
  }

  predicate Inv(s: State) {
    PairsOk(s) && EarlierOk(s) && CountsOk(s) && QuietOk(s)
  }

  // ---------- every input keeps the invariant ----------

  /** The invariant but for what is still to be reconciled. */
  predicate Core(s: State) {
    PairsOk(s) && EarlierOk(s) && CountsOk(s)
  }

  /** What no event undoes: earlier turns, the bound pair, a settled outcome. */
  predicate Kept(s: State, t: State) {
    && |t.rows| == |s.rows| && t.pairs == s.pairs && t.priorSeen == s.priorSeen && t.started == s.started
    && (forall i :: 0 <= i < |s.rows| - 1 ==> t.rows[i] == s.rows[i])
    && (s.rows != [] && Current(s).outcome != Pending ==> Current(t).outcome == Current(s).outcome)
    && (s.pair.Some? ==> t.pair == s.pair)
    && s.seen <= t.seen
  }

  lemma KeptTransitive(s: State, t: State, v: State)
    requires Kept(s, t) && Kept(t, v)
    ensures Kept(s, v)
  {
  }

  /** What the invariant does not look at may change. */
  lemma SameBook(s: State, t: State)
    requires Core(s)
    requires t.rows == s.rows && t.pair == s.pair && t.seen == s.seen && t.priorSeen == s.priorSeen
    requires t.interruptions == s.interruptions && t.started == s.started && t.pairs == s.pairs
    ensures Core(t) && Kept(s, t)
  {
  }

  /** The current row and the counts may change within their rules. */
  lemma RowChanges(s: State, t: State, r: Row)
    requires Core(s) && s.rows != []
    requires t.rows == s.rows[|s.rows| - 1 := r] && t.pairs == s.pairs && t.started == s.started
    requires t.seen == s.seen && t.priorSeen == s.priorSeen
    requires t.pair == s.pair || (s.pair.None? && t.pair.Some? && t.pair.value !in s.priorSeen)
    requires r.outcome == Current(s).outcome
             || (Current(s).outcome == Pending && t.pair.Some? && t.pair.value in s.seen)
    requires forall i :: 0 <= i < |t.interruptions| ==> t.interruptions[i].pair in s.seen
    requires CountsOk(t)
    ensures Core(t) && Kept(s, t)
  {
    hide CountsOk;
    assert forall i :: 0 <= i < |s.rows| - 1 ==> t.rows[i] == s.rows[i];
    assert Current(t) == r;
    forall i | 0 <= i < |t.pairs| && Settled(t, i) ensures Settled(s, i) {
      assert t.rows[i] == s.rows[i];
    }
  }

  lemma IdentifyKeeps(s: State, e: Event)
    requires Core(s)
    ensures Identify(s, e).Some? ==> Core(Identify(s, e).value) && Kept(s, Identify(s, e).value)
    ensures TrackTask(s, e).Some? ==> Core(TrackTask(s, e).value) && Kept(s, TrackTask(s, e).value)
  {
    hide Core, Kept;
    if Identify(s, e).Some? {
      SameBook(s, Identify(s, e).value);
    }
    SameBook(s, s);
    if TrackTask(s, e).Some? {
      SameBook(s, TrackTask(s, e).value);
    }
  }

  lemma AdmitKeeps(s: State, e: Event)
    requires Core(s) && s.rows != [] && Admit(s, e).Some?
    ensures Core(Admit(s, e).value) && Kept(s, Admit(s, e).value)
  {
    hide Core, Kept, InputCorrelation;
    SameBook(s, s);
    SameBook(s, Admit(s, e).value);
  }

  lemma MarkKeeps(s: State, e: Event)
    requires Core(s) && Mark(s, e).Some?
    ensures Core(Mark(s, e).value) && Kept(s, Mark(s, e).value) && Mark(s, e).value.rows == s.rows
  {
    hide Core, Kept, ValidPair;
    SameBook(s, s);
    SameBook(s, Mark(s, e).value);
  }

  lemma BindKeeps(s: State, e: Event)
    requires Core(s) && s.rows != []
    ensures Core(Bind(s, e)) && Kept(s, Bind(s, e)) && Bind(s, e).rows == s.rows
  {
    hide ValidPair, EarlierOk, CountsOk;
    var t := Bind(s, e);
    assert EarlierOk(t) && CountsOk(t) by { SameEarlier(s, t); }
  }

  lemma SameEarlier(s: State, t: State)
    requires t.rows == s.rows && t.pairs == s.pairs && t.priorSeen == s.priorSeen
    requires t.interruptions == s.interruptions && (s.pair.Some? ==> t.pair.Some?)
    ensures EarlierOk(s) ==> EarlierOk(t)
    ensures CountsOk(s) ==> CountsOk(t)
  {
  }

  lemma SeeKeeps(s: State, e: Event)
    requires Core(s) && See(s, e).Some?
    ensures var t := See(s, e).value;
            Core(t) && Kept(s, t) && t.rows == s.rows && (IsTerminal(e) && ValidPair(e).Some? ==> ValidPair(e).value in t.seen)
  {
    hide ValidPair, EarlierOk, CountsOk;
    SameEarlier(s, See(s, e).value);
  }

  lemma SettleKeeps(s: State, e: Event)
    requires Core(s) && s.rows != [] && Settle(s, e).Some?
    requires IsTerminal(e) && ValidPair(e).Some? ==> ValidPair(e).value in s.seen
    ensures Core(Settle(s, e).value) && Kept(s, Settle(s, e).value)
  {
    var t := Settle(s, e).value;
    SettleRow(s, e);
    assert CountsOk(t);
    hide Core, Kept, ValidPair, Holds, InputCorrelation, CountsOk, Settle;
    assert forall i :: 0 <= i < |s.interruptions| ==> s.interruptions[i].pair in s.seen by { CoreSees(s); }
    RowChanges(s, t, Current(t));
  }

  lemma CoreSees(s: State)
    requires Core(s)
    ensures forall i :: 0 <= i < |s.interruptions| ==> s.interruptions[i].pair in s.seen
    ensures CountsOk(s) && (s.pair.Some? ==> s.pair.value !in s.priorSeen)
  {
  }

  /** What settling does to the row and the interruptions. */
  lemma SettleRow(s: State, e: Event)
    requires s.rows != [] && Settle(s, e).Some? && CountsOk(s)
    ensures var t, r := Settle(s, e).value, Current(Settle(s, e).value);
            && t.rows == s.rows[|s.rows| - 1 := r] && t.pairs == s.pairs && t.started == s.started && t.pair == s.pair
            && t.seen == s.seen && t.priorSeen == s.priorSeen && CountsOk(t)
            && (r.outcome == Current(s).outcome
                || (Current(s).outcome == Pending && IsTerminal(e) && ValidPair(e) == s.pair && s.pair.Some?))
            && (t.interruptions == s.interruptions
                || (IsTerminal(e) && ValidPair(e).Some?
                    && t.interruptions == s.interruptions + [Interruption(ValidPair(e).value, InputCorrelation(e))]))
  {
    hide ValidPair, Holds, InputCorrelation, CountsOk;
    var t := Settle(s, e).value;
    assert s.rows[|s.rows| - 1 := Current(s)] == s.rows;
    if IsTerminal(e) && !(ValidPair(e).Some? && ValidPair(e) == s.pair) {
      SettleCounts(s, e);
      UnmatchedCounts(s, t);
    } else {
      MatchedCounts(s, t);
    }
  }

  lemma UnmatchedCounts(s: State, t: State)
    requires s.rows != [] && CountsOk(s)
    requires t.rows == s.rows[|s.rows| - 1 := Current(s).(unbound := Current(s).unbound + 1)] && t.pair == s.pair
    requires |t.interruptions| <= |s.interruptions| + 1
    ensures CountsOk(t)
  {
  }

  lemma MatchedCounts(s: State, t: State)
    requires s.rows != [] && CountsOk(s) && t.interruptions == s.interruptions && t.pair == s.pair
    requires t.rows == s.rows
             || (exists o :: Current(s).outcome == Pending && t.rows == s.rows[|s.rows| - 1 := Current(s).(outcome := o)])
    ensures CountsOk(t)
  {
  }

  /** A terminal event that is not the bound pair's is counted. */
  lemma SettleCounts(s: State, e: Event)
    requires s.rows != [] && Settle(s, e).Some? && IsTerminal(e) && !(ValidPair(e).Some? && ValidPair(e) == s.pair)
    ensures var t, r := Settle(s, e).value, Current(s);
            && t == s.(rows := s.rows[|s.rows| - 1 := r.(unbound := r.unbound + 1)],
                       interruptions := t.interruptions)
            && (t.interruptions == s.interruptions
                || (ValidPair(e).Some? && t.interruptions == s.interruptions + [Interruption(ValidPair(e).value, InputCorrelation(e))]))
  {
    hide ValidPair, Holds, InputCorrelation;
  }

  lemma ReconcileKeeps(s: State)
    requires Core(s) && s.rows != []
    ensures Core(Reconcile(s)) && QuietOk(Reconcile(s)) && Kept(s, Reconcile(s))
  {
    CoreSees(s);
    var t := Reconcile(s);
    assert QuietOk(t) && CountsOk(t) by { hide Core, Kept; }
    hide Core, Kept, CountsOk, QuietOk;
    if Current(s).outcome != Pending || FirstCandidate(s, 0).None? {
      SameBook(s, s);
    } else {
      RowChanges(s, t, Current(t));
    }
  }

  lemma ProjectKeeps(s: State, e: Event)
    requires Core(s) && QuietOk(s) && s.rows != []
    ensures Inv(Project(s, e)) && Kept(s, Project(s, e))
    ensures Current(Project(s, e)).outcome == Current(s).outcome && Project(s, e).pair == s.pair
    ensures Current(Project(s, e)).unbound == Current(s).unbound
  {
    hide Core, Kept, ValidPair, Timed;
    var t := Project(s, e);
    CoreSees(s);
    SameCandidates(s, t, 0);
    if t == s {
      SameBook(s, s);
    } else {
      TimedKeeps(Current(s), MarksAt(s, s.pair.value), s.started);
      ProjectedRow(s, e);
      RowChanges(s, t, Current(t));
    }
    InvFromCore(t);
  }

  lemma InvFromCore(s: State)
    requires Core(s) && QuietOk(s)
    ensures Inv(s)
  {
  }

  lemma TimedKeeps(r: Row, m: Marks, started: real)
    ensures Timed(r, m, started).outcome == r.outcome && Timed(r, m, started).unbound == r.unbound
  {
  }

  lemma ProjectedRow(s: State, e: Event)
    requires s.rows != []
    ensures var t := Project(s, e);
            && t == s.(rows := s.rows[|s.rows| - 1 := Current(t)])
            && Current(t).outcome == Current(s).outcome && Current(t).unbound == Current(s).unbound
  {
  }

  lemma {:induction false} SameCandidates(s: State, t: State, from: nat)
    requires from <= |s.interruptions| && s.interruptions == t.interruptions && s.admittedInput == t.admittedInput
    requires s.priorSeen == t.priorSeen && s.pair == t.pair
    ensures FirstCandidate(s, from) == FirstCandidate(t, from)
    decreases |s.interruptions| - from
  {
    if from < |s.interruptions| {
      SameCandidates(s, t, from + 1);
    }
  }

  lemma AttributeKeeps(s: State, e: Event)
    requires Core(s) && s.rows != [] && Attribute(s, e).Some?
    ensures Core(Attribute(s, e).value) && Kept(s, Attribute(s, e).value)
  {
    hide Core, Kept, ValidPair, Mark, Bind, See, Settle, IsTerminal;
    MarkKeeps(s, e);
    var marked := Mark(s, e).value;
    BindKeeps(marked, e);
    var bound := Bind(marked, e);
    SeeKeeps(bound, e);
    var noticed := See(bound, e).value;
    SettleKeeps(noticed, e);
    KeptTransitive(s, marked, bound);
    KeptTransitive(s, bound, noticed);
    KeptTransitive(s, noticed, Attribute(s, e).value);
  }

  lemma ConsumeKeeps(s: State, e: Event)
    requires Inv(s) && Consume(s, e).Some?
    ensures Inv(Consume(s, e).value) && Kept(s, Consume(s, e).value)
  {
    hide Core, Kept, ValidPair, Identify, TrackTask, Admit, Attribute, Reconcile, Project, Inv;
    InvIsCore(s);
    IdentifyKeeps(s, e);
    var identified := Identify(s, e).value;
    IdentifyKeeps(identified, e);
    var tracked := TrackTask(identified, e).value;
    KeptTransitive(s, identified, tracked);
    if s.rows == [] {
      BeforeTheFirstTurn(s, tracked, e);
    } else {
      KeptRows(s, tracked);
      AdmitKeeps(tracked, e);
      var admitted := Admit(tracked, e).value;
      KeptRows(tracked, admitted);
      AttributeKeeps(admitted, e);
      var settled := Attribute(admitted, e).value;
      ReconcileKeeps(settled);
      KeptRows(settled, Reconcile(settled));
      ProjectKeeps(Reconcile(settled), e);
      KeptTransitive(s, tracked, admitted);
      KeptTransitive(s, admitted, settled);
      KeptTransitive(s, settled, Reconcile(settled));
      KeptTransitive(s, Reconcile(settled), Consume(s, e).value);
    }
  }

  lemma InvIsCore(s: State)
    requires Inv(s)
    ensures Core(s)
  {
  }

  lemma KeptRows(s: State, t: State)
    requires Kept(s, t)
    ensures |s.rows| == |t.rows|
  {
  }

  lemma BeforeTheFirstTurn(s: State, t: State, e: Event)
    requires s.rows == [] && Core(t) && Kept(s, t) && Consume(s, e).Some?
    requires Consume(s, e).value == if ValidPair(e).Some? then t.(seen := t.seen + {ValidPair(e).value}) else t
    ensures Inv(Consume(s, e).value) && Kept(s, Consume(s, e).value)
  {
    hide Consume, ValidPair;
  }

  lemma BeginKeeps(s: State, name: string, sequence: int, text: string, now: real)
    requires Inv(s) && Begin(s, name, sequence, text, now).Some?
    ensures Inv(Begin(s, name, sequence, text, now).value)
  {
    var t := Begin(s, name, sequence, text, now).value;
    forall i | 0 <= i < |t.pairs| && Settled(t, i) ensures t.pairs[i].Some? && t.pairs[i].value in t.priorSeen {
      assert t.rows[i] == s.rows[i];
      assert Settled(s, i);
    }
    forall i, j | 0 <= i < j < |t.pairs| && Settled(t, i) && t.pairs[j].Some? ensures t.pairs[i] != t.pairs[j] {
      assert t.rows[i] == s.rows[i] && Settled(s, i);
    }
  }

  lemma {:induction false} Reachable(inputs: seq<Input>)
    requires After(inputs).Some?
    ensures Inv(After(inputs).value)
  {
    hide Inv, Consume, Begin;
    if inputs == [] {
      StartHolds();
    } else {
      var front, last := inputs[..|inputs| - 1], inputs[|inputs| - 1];
      Reachable(front);
      match last
      case BeginTurn(name, sequence, text, now) => BeginKeeps(After(front).value, name, sequence, text, now);
      case Receive(e) => ConsumeKeeps(After(front).value, e);
    }
  }

  lemma StartHolds()
    ensures Inv(Initial())
  {
  }

  // ---------- what every run guarantees ----------

  /** One more input rewrites no turn: not the pair it was bound to, not the outcome it settled on. */
  predicate NoTurnRewritten(s: State, t: State) {
    && |s.rows| <= |t.rows| && |s.pairs| == Least0(|s.rows|) && |t.pairs| == Least0(|t.rows|)
    && forall k :: 0 <= k < |s.rows| ==>
         && (BoundPair(s, k).Some? ==> BoundPair(t, k) == BoundPair(s, k))
         && (Settled(s, k) ==> t.rows[k].outcome == s.rows[k].outcome)
  }

  /** One less, but not below zero. */
  function Least0(n: nat): nat {
    if n == 0 then 0 else n - 1
  }

  lemma NextRewritesNothing(s: State, i: Input)
    requires Inv(s) && Next(s, i).Some?
    ensures NoTurnRewritten(s, Next(s, i).value)
  {
    hide Consume;
    match i
    case BeginTurn(name, sequence, text, now) =>
    case Receive(e) =>
      ConsumeKeeps(s, e);
      var t := Consume(s, e).value;
      assert s.rows != [] ==> Current(t) == t.rows[|s.rows| - 1];
  }

  /** Over any run, a turn's bound pair never changes and a settled outcome never changes. */
  lemma {:induction false} NothingIsRewritten(inputs: seq<Input>, more: seq<Input>)
    requires After(inputs + more).Some?
    ensures After(inputs).Some? && NoTurnRewritten(After(inputs).value, After(inputs + more).value)
    decreases |more|
  {
    hide Inv, Next;
    if more == [] {
      assert inputs + more == inputs;
      Reachable(inputs);
      RewritesNothingItself(After(inputs).value);
    } else {
      var whole, front := inputs + more, more[..|more| - 1];
      assert whole[..|whole| - 1] == inputs + front;
      NothingIsRewritten(inputs, front);
      Reachable(inputs + front);
      NextRewritesNothing(After(inputs + front).value, whole[|whole| - 1]);
    }
  }

  lemma RewritesNothingItself(s: State)
    requires Inv(s)
    ensures NoTurnRewritten(s, s)
  {
  }

  /**
   Over any run: the current turn's pair was unseen when the turn began, settled turns are bound, and to
   pairwise distinct pairs; even a turn that is only bound has no earlier settled turn's pair.
   */
  lemma SettledPairsAreDistinct(inputs: seq<Input>)
    requires After(inputs).Some?
    ensures var s := After(inputs).value;
            && (s.pair.Some? ==> s.pair.value !in s.priorSeen)
            && |s.pairs| == Least0(|s.rows|)
            && (forall i :: 0 <= i < |s.rows| && Settled(s, i) ==> BoundPair(s, i).Some?)
            && (forall i, j :: 0 <= i < j < |s.rows| && Settled(s, i) && BoundPair(s, j).Some? ==> BoundPair(s, i) != BoundPair(s, j))
  {
    hide After;
    Reachable(inputs);
    var s := After(inputs).value;
    assert forall i :: 0 <= i < |s.pairs| && Settled(s, i) ==> s.pairs[i].Some? && s.pairs[i].value in s.priorSeen;
  }

  /** A terminal event that is not one of the pair bound when it arrives. */
  predicate Unmatches(s: State, e: Event) {
    s.rows != [] && IsTerminal(e) && (ValidPair(e).None? || ValidPair(e) != s.pair)
  }

  /** The pending turn is over after this event, although the event did not settle it by itself. */
  predicate Reconciles(s: State, e: Event) {
    && s.rows != [] && Current(s).outcome == Pending && !(IsTerminal(e) && ValidPair(e).Some? && ValidPair(e) == s.pair)
    && var t := Consume(s, e);
       t.Some? && t.value.rows != [] && Current(t.value).outcome != Pending
  }

  /** How many terminal events matched nothing on arrival since the current turn began. */
  function UnmatchedIn(inputs: seq<Input>): nat {
    if inputs == [] || inputs[|inputs| - 1].BeginTurn? then 0
    else
      var front, e := inputs[..|inputs| - 1], inputs[|inputs| - 1].event;
      UnmatchedIn(front) + if After(front).Some? && Unmatches(After(front).value, e) then 1 else 0
  }

  /** Whether the current turn was settled by reconciliation. */
  predicate ReconciledIn(inputs: seq<Input>) {
    && inputs != [] && inputs[|inputs| - 1].Receive?
    && var front, e := inputs[..|inputs| - 1], inputs[|inputs| - 1].event;
       ReconciledIn(front) || (After(front).Some? && Reconciles(After(front).value, e))
  }

  /** What attribution does to the count and the outcome. */
  lemma AttributeCounts(s: State, e: Event)
    requires s.rows != [] && Attribute(s, e).Some?
    ensures var r, t := Current(s), Current(Attribute(s, e).value);
            && t.unbound == r.unbound + (if Unmatches(s, e) then 1 else 0)
            && (t.outcome == r.outcome || (r.outcome == Pending && IsTerminal(e) && ValidPair(e).Some? && ValidPair(e) == s.pair))
            && (IsTerminal(e) && ValidPair(e).Some? && ValidPair(e) == s.pair ==> t.outcome != Pending)
  {
    hide ValidPair, InputCorrelation, Settle;
    var noticed := See(Bind(Mark(s, e).value, e), e).value;
    assert noticed.rows == s.rows && (IsTerminal(e) ==> noticed.pair == s.pair);
    SettleCount(noticed, e);
  }

  lemma SettleCount(s: State, e: Event)
    requires s.rows != [] && Settle(s, e).Some?
    ensures var r, t := Current(s), Current(Settle(s, e).value);
            && t.unbound == r.unbound + (if Unmatches(s, e) then 1 else 0)
            && (t.outcome == r.outcome || (r.outcome == Pending && IsTerminal(e) && ValidPair(e).Some? && ValidPair(e) == s.pair))
            && (IsTerminal(e) && ValidPair(e).Some? && ValidPair(e) == s.pair ==> t.outcome != Pending)
  {
    hide ValidPair, InputCorrelation, Holds;
  }

  /** One event adds one to the count if it is unmatched, and takes one away if something is reconciled. */
  lemma ConsumeCounts(s: State, e: Event)
    requires Inv(s) && s.rows != [] && Consume(s, e).Some?
    ensures var r, t := Current(s), Consume(s, e).value;
            && t.rows != []
            && Current(t).unbound == r.unbound + (if Unmatches(s, e) then 1 else 0) - (if Reconciles(s, e) then 1 else 0)
            && (Reconciles(s, e) ==> Current(t).outcome == Interrupted)
            && (r.outcome != Pending ==> Current(t).outcome == r.outcome)
  {
    hide ValidPair, Attribute, Project, TrackTask, Identify, FirstCandidate, Admit, Inv;
    TrackedSame(s, e);
    var tracked := TrackTask(Identify(s, e).value, e).value;
    AdmittedRows(tracked, e);
    var admitted := Admit(tracked, e).value;
    AttributeCounts(admitted, e);
    var settled := Attribute(admitted, e).value;
    ReconcileCounts(settled);
    ProjectedRow(Reconcile(settled), e);
  }

  lemma AdmittedRows(s: State, e: Event)
    requires s.rows != [] && Admit(s, e).Some?
    ensures var t := Admit(s, e).value;
            t == s.(userSeen := t.userSeen, admitted := t.admitted, admittedInput := t.admittedInput)
    ensures s.admitted ==> Admit(s, e).value.admitted && Admit(s, e).value.admittedInput == s.admittedInput
  {
    hide InputCorrelation;
  }

  lemma ReconcileCounts(s: State)
    requires s.rows != []
    ensures var r, t := Current(s), Current(Reconcile(s));
            || (t == r && Reconcile(s).pair == s.pair)
            || (r.outcome == Pending && t.outcome == Interrupted && t.unbound == r.unbound - 1)
  {
    hide FirstCandidate;
  }

  /**
   Over any run `unboundTerminalEvents` is never negative: it is the number of terminal events of the turn
   that matched nothing when they arrived, less one if the turn was reconciled.
   */
  lemma {:induction false} UnboundCount(inputs: seq<Input>)
    requires After(inputs).Some? && After(inputs).value.rows != []
    ensures var r := Current(After(inputs).value);
            && 0 <= r.unbound == UnmatchedIn(inputs) - (if ReconciledIn(inputs) then 1 else 0)
            && (ReconciledIn(inputs) ==> r.outcome == Interrupted)
  {
    hide Inv, Consume, Reconciles, Unmatches;
    Reachable(inputs);
    CountIsNatural(After(inputs).value);
    var front, last := inputs[..|inputs| - 1], inputs[|inputs| - 1];
    if last.Receive? {
      RowsBefore(After(front).value, last.event);
      Reachable(front);
      UnboundCount(front);
      ConsumeCounts(After(front).value, last.event);
      SettledStays(After(front).value, last.event);
    }
  }

  lemma SettledStays(s: State, e: Event)
    ensures s.rows != [] && Current(s).outcome != Pending ==> !Reconciles(s, e)
  {
  }

  lemma CountIsNatural(s: State)
    requires Inv(s) && s.rows != []
    ensures Current(s).unbound >= 0
  {
  }

  lemma RowsBefore(s: State, e: Event)
    requires Consume(s, e).Some? && Consume(s, e).value.rows != []
    ensures s.rows != []
  {
    hide ValidPair, Attribute, Reconcile, Project, Admit;
  }

  /** A late terminal event, for a pair seen before the turn began, decides nothing. */
  lemma LateTerminalDecidesNothing(inputs: seq<Input>, e: Event)
    requires After(inputs).Some? && After(inputs).value.rows != []
    requires IsTerminal(e) && ValidPair(e).Some? && ValidPair(e).value in After(inputs).value.priorSeen
    requires Consume(After(inputs).value, e).Some?
    ensures var s, t := After(inputs).value, Consume(After(inputs).value, e).value;
            Current(t).outcome == Current(s).outcome && t.pair == s.pair
  {
    hide After;
    Reachable(inputs);
    LateIn(After(inputs).value, e);
  }

  /** An earlier settled turn's pair is such a pair. */
  lemma EarlierPairsAreLate(inputs: seq<Input>, turn: nat)
    requires After(inputs).Some? && turn < |After(inputs).value.rows| - 1 && Settled(After(inputs).value, turn)
    ensures var s := After(inputs).value;
            turn < |s.pairs| && s.pairs[turn].Some? && s.pairs[turn].value in s.priorSeen
  {
    hide After;
    Reachable(inputs);
  }

  lemma LateIn(s: State, e: Event)
    requires Inv(s) && s.rows != [] && Consume(s, e).Some?
    requires IsTerminal(e) && ValidPair(e).Some? && ValidPair(e).value in s.priorSeen
    ensures var t := Consume(s, e).value;
            Current(t).outcome == Current(s).outcome && t.pair == s.pair
  {
    hide Inv, Consume, Attribute, ValidPair, InputCorrelation, Reconcile, Project, Settle;
    InvIsCore(s);
    CoreSees(s);
    ConsumeTerminal(s, e);
    var identified := s.(cursor := e.sequence);
    AttributeTerminal(identified, e);
    var seen := identified.(seen := s.seen + {ValidPair(e).value});
    SettleUnmatched(seen, e);
    var settled := Settle(seen, e).value;
    QuietBefore(s);
    if Current(s).outcome == Pending {
      var isNew := e.kind == TurnInterrupted && !Holds(seen.interruptions, ValidPair(e).value);
      var extra := if isNew then [Interruption(ValidPair(e).value, InputCorrelation(e))] else [];
      assert isNew || s.interruptions + extra == s.interruptions;
      NoNewCandidate(s, settled, extra);
    }
    NothingReconciled(settled);
    ProjectedRow(settled, e);
  }

  lemma QuietBefore(s: State)
    requires Inv(s)
    ensures QuietOk(s)
  {
  }

  lemma NothingReconciled(s: State)
    requires s.rows != [] && (Current(s).outcome != Pending || FirstCandidate(s, 0).None?)
    ensures Reconcile(s) == s
  {
  }

  /** What attribution does with a terminal event. */
  lemma AttributeTerminal(s: State, e: Event)
    requires s.rows != [] && IsTerminal(e) && ValidPair(e).Some?
    ensures var seen := s.seen + {ValidPair(e).value};
            Attribute(s, e) == if |seen| <= IDENTITIES then Settle(s.(seen := seen), e) else None
  {
    hide ValidPair, Settle;
  }

  /** A terminal event of another pair is counted and, if it is a new interruption, remembered. */
  lemma SettleUnmatched(s: State, e: Event)
    requires s.rows != [] && IsTerminal(e) && ValidPair(e).Some? && ValidPair(e) != s.pair && Settle(s, e).Some?
    ensures var t, r := Settle(s, e).value, Current(s);
            var isNew := e.kind == TurnInterrupted && !Holds(s.interruptions, ValidPair(e).value);
            && t == s.(rows := s.rows[|s.rows| - 1 := r.(unbound := r.unbound + 1)],
                       interruptions := if isNew then s.interruptions + [Interruption(ValidPair(e).value, InputCorrelation(e))]
                                        else s.interruptions)
  {
    hide ValidPair, Holds, InputCorrelation;
  }

  /** A terminal event passes straight to attribution. */
  lemma ConsumeTerminal(s: State, e: Event)
    requires IsTerminal(e) && s.rows != [] && Consume(s, e).Some?
    ensures Attribute(s.(cursor := e.sequence), e).Some?
    ensures Consume(s, e) == Some(Project(Reconcile(Attribute(s.(cursor := e.sequence), e).value), e))
  {
    hide Attribute, Reconcile, Project;
  }

  lemma NoNewCandidate(s: State, t: State, extra: seq<Interruption>)
    requires FirstCandidate(s, 0).None?
    requires t.pair == s.pair && t.priorSeen == s.priorSeen && t.admittedInput == s.admittedInput
    requires t.interruptions == s.interruptions + extra
    requires forall k :: 0 <= k < |extra| ==> extra[k].pair in s.priorSeen
    ensures FirstCandidate(t, 0).None?
  {
    forall i | 0 <= i < |t.interruptions| ensures !Candidate(t, t.interruptions[i]) {
      if i < |s.interruptions| {
        assert t.interruptions[i] == s.interruptions[i];
      } else {
        assert t.interruptions[i] == extra[i - |s.interruptions|];
      }
    }
  }

  // ---------- reconciliation ----------

  /**
   The admitted input is the turn's own, and a reconciled turn holds an interruption that named its pair and
   carried exactly that input and binding.
   */
  predicate OwnOk(s: State, reconciled: bool) {
    s.rows != [] ==>
      && (s.admittedInput.Some? ==> s.admitted && s.admittedInput.value.sequence == Current(s).inputSequence)
      && (reconciled ==> s.admittedInput.Some? && s.pair.Some?
                         && Interruption(s.pair.value, s.admittedInput) in s.interruptions)
  }

  lemma OwnThroughAttribute(s: State, e: Event, reconciled: bool)
    requires s.rows != [] && OwnOk(s, reconciled) && Attribute(s, e).Some?
    ensures OwnOk(Attribute(s, e).value, reconciled)
  {
    hide ValidPair, InputCorrelation, Holds, Settle;
    var noticed := See(Bind(Mark(s, e).value, e), e).value;
    assert OwnOk(noticed, reconciled);
    OwnThroughSettle(noticed, e, reconciled);
  }

  lemma OwnThroughSettle(s: State, e: Event, reconciled: bool)
    requires s.rows != [] && OwnOk(s, reconciled) && Settle(s, e).Some?
    ensures OwnOk(Settle(s, e).value, reconciled)
  {
    hide ValidPair, InputCorrelation, Holds;
    var t := Settle(s, e).value;
    SettleSame(s, e);
    hide Settle;
    if reconciled {
      var i :| 0 <= i < |s.interruptions| && s.interruptions[i] == Interruption(s.pair.value, s.admittedInput);
      assert t.interruptions[i] == s.interruptions[i];
    }
  }

  /** Settling leaves the input, the pair and the remembered interruptions as they are. */
  lemma SettleSame(s: State, e: Event)
    requires s.rows != [] && Settle(s, e).Some?
    ensures var t := Settle(s, e).value;
            && t.rows != [] && Current(t).inputSequence == Current(s).inputSequence && t.pair == s.pair
            && t.admitted == s.admitted && t.admittedInput == s.admittedInput && s.interruptions <= t.interruptions
  {
    hide ValidPair, InputCorrelation, Holds;
  }

  /** What reconciliation adds is an interruption of the turn's own input. */
  lemma OwnThroughReconcile(s: State, reconciled: bool)
    requires s.rows != [] && OwnOk(s, reconciled)
    ensures OwnOk(Reconcile(s), reconciled || Current(Reconcile(s)).outcome != Current(s).outcome)
  {
  }

  lemma OwnThroughProject(s: State, e: Event, reconciled: bool)
    requires s.rows != [] && OwnOk(s, reconciled)
    ensures OwnOk(Project(s, e), reconciled)
  {
    hide ValidPair;
  }

  lemma OwnThroughConsume(s: State, e: Event, reconciled: bool)
    requires OwnOk(s, reconciled) && Consume(s, e).Some?
    ensures OwnOk(Consume(s, e).value, reconciled || Reconciles(s, e))
  {
    hide ValidPair, Attribute, Reconcile, Project, TrackTask, Identify;
    TrackedSame(s, e);
    if s.rows != [] {
      var admitted := Admit(TrackTask(Identify(s, e).value, e).value, e).value;
      assert OwnOk(admitted, reconciled);
      OwnThroughAttribute(admitted, e, reconciled);
      var settled := Attribute(admitted, e).value;
      AttributeCounts(admitted, e);
      OwnThroughReconcile(settled, reconciled);
      var now := reconciled || Current(Reconcile(settled)).outcome != Current(settled).outcome;
      OwnThroughProject(Reconcile(settled), e, now);
      ProjectedRow(Reconcile(settled), e);
    }
  }

  lemma TrackedSame(s: State, e: Event)
    requires Identify(s, e).Some? && TrackTask(Identify(s, e).value, e).Some?
    ensures TrackTask(Identify(s, e).value, e).value
            == s.(cursor := e.sequence, tasks := TrackTask(Identify(s, e).value, e).value.tasks)
  {
  }

  /** A turn is only ever reconciled with an interruption of its own admitted input sequence and binding. */
  lemma {:induction false} ReconciledIsOwn(inputs: seq<Input>)
    requires After(inputs).Some?
    ensures OwnOk(After(inputs).value, ReconciledIn(inputs))
  {
    hide Consume, Reconciles;
    if inputs != [] {
      var front, last := inputs[..|inputs| - 1], inputs[|inputs| - 1];
      ReconciledIsOwn(front);
      match last
      case BeginTurn(_, _, _, _) =>
      case Receive(e) => OwnThroughConsume(After(front).value, e, ReconciledIn(front));
    }
  }

  // ---------- admission and interruption in either order ----------

  /** The next event, numbered as the browser does. */
  function Deliver(s: State, e: Event): Option<State> {
    Consume(s, e.(sequence := s.cursor + 1))
  }

  /** Events that arrive one after the other. */
  function Delivered(s: State, events: seq<Event>): Option<State> {
    if events == [] then Some(s)
    else
      var before := Delivered(s, events[..|events| - 1]);
      if before.None? then None else Deliver(before.value, events[|events| - 1])
  }

  /** The same events as inputs, numbered on from a cursor. */
  function Arrivals(cursor: int, events: seq<Event>): seq<Input> {
    if events == [] then []
    else Arrivals(cursor, events[..|events| - 1]) + [Receive(events[|events| - 1].(sequence := cursor + |events|))]
  }

  /** Delivering events continues the run. */
  lemma {:induction false} DeliveredIsARun(inputs: seq<Input>, events: seq<Event>)
    requires After(inputs).Some?
    ensures var s := After(inputs).value;
            && After(inputs + Arrivals(s.cursor, events)) == Delivered(s, events)
            && (Delivered(s, events).Some? ==> Delivered(s, events).value.cursor == s.cursor + |events|)
    decreases |events|
  {
    hide After, Deliver;
    var s := After(inputs).value;
    if events == [] {
      assert inputs + Arrivals(s.cursor, events) == inputs;
    } else {
      var front, e := events[..|events| - 1], events[|events| - 1];
      DeliveredIsARun(inputs, front);
      var received := Receive(e.(sequence := s.cursor + |events|));
      assert inputs + Arrivals(s.cursor, events) == inputs + Arrivals(s.cursor, front) + [received];
      OneMore(inputs + Arrivals(s.cursor, front), received);
      if Delivered(s, front).Some? {
        DeliverIsNext(Delivered(s, front).value, e);
      }
    }
  }

  lemma OneMore(inputs: seq<Input>, i: Input)
    ensures After(inputs + [i]) == if After(inputs).None? then None else Next(After(inputs).value, i)
  {
    hide Next;
    assert (inputs + [i])[..|inputs|] == inputs;
  }

  lemma DeliverIsNext(s: State, e: Event)
    ensures Deliver(s, e) == Next(s, Receive(e.(sequence := s.cursor + 1)))
    ensures Deliver(s, e).Some? ==> Deliver(s, e).value.cursor == s.cursor + 1
  {
    hide Consume;
    if Deliver(s, e).Some? {
      CursorMoves(s, e);
    }
  }

  lemma CursorMoves(s: State, e: Event)
    requires Deliver(s, e).Some?
    ensures Deliver(s, e).value.cursor == s.cursor + 1
  {
    hide ValidPair, Admit, TrackTask, Identify, Attribute, Reconcile, Project;
    var f := e.(sequence := s.cursor + 1);
    TrackedSame(s, f);
    if s.rows != [] {
      var tracked := TrackTask(Identify(s, f).value, f).value;
      AdmittedRows(tracked, f);
      AttributeCursor(Admit(tracked, f).value, f);
      EndCursor(Attribute(Admit(tracked, f).value, f).value, f);
    }
  }

  lemma AttributeCursor(s: State, e: Event)
    requires s.rows != [] && Attribute(s, e).Some?
    ensures Attribute(s, e).value.cursor == s.cursor
  {
    hide ValidPair, Settle;
    SettleCursor(See(Bind(Mark(s, e).value, e), e).value, e);
  }

  lemma EndCursor(s: State, e: Event)
    requires s.rows != []
    ensures Project(Reconcile(s), e).cursor == s.cursor
  {
    hide ValidPair, FirstCandidate, Timed;
  }

  lemma SettleCursor(s: State, e: Event)
    requires s.rows != [] && Settle(s, e).Some?
    ensures Settle(s, e).value.cursor == s.cursor
  {
    hide ValidPair, InputCorrelation, Holds;
  }

  /**
   A pending turn, not admitted and bound to nothing, whose admission `a` and whose interruption `i` carry
   the same input and binding; the interruption's pair is new to the turn, and nothing else is a candidate.
   */
  predicate OneCandidate(s: State, a: Event, i: Event) {
    && s.rows != [] && Current(s).outcome == Pending && !s.admitted && s.pair.None?
    && a.kind == InputAdmitted && ValidPair(a).None? && a.inputSequence == Some(Current(s).inputSequence)
    && InputCorrelation(a).Some?
    && i.kind == TurnInterrupted && ValidPair(i).Some? && ValidPair(i).value !in s.priorSeen && !Holds(s.interruptions, ValidPair(i).value)
    && InputCorrelation(i) == InputCorrelation(a)
    && NoOther(s, InputCorrelation(a))
    && a.clock >= 0.0 && a.size <= EVENT_BYTES && i.clock >= 0.0 && i.size <= EVENT_BYTES
  }

  predicate NoOther(s: State, c: Option<Correlation>) {
    forall k :: 0 <= k < |s.interruptions| ==> s.interruptions[k].correlation != c || s.interruptions[k].pair in s.priorSeen
  }

  /** An event that neither binds a pair nor admits nor ends anything. */
  predicate Bystander(e: Event) {
    !IsTerminal(e) && e.kind != InputAdmitted && !(e.kind == FirstToken && ValidPair(e).Some?)
  }

  predicate Bystanders(events: seq<Event>) {
    forall k :: 0 <= k < |events| ==> Bystander(events[k])
  }

  /** The clock of the first playable audio of a pair. */
  function FirstPlay(events: seq<Event>, p: Pair): Option<real> {
    if events == [] then None
    else
      var front, e := events[..|events| - 1], events[|events| - 1];
      if FirstPlay(front, p).None? && e.kind == FirstPlayable && ValidPair(e) == Some(p) then Some(e.clock) else FirstPlay(front, p)
  }

  /** A pair's marks once these events have arrived too. */
  function MarksWith(s: State, events: seq<Event>, p: Pair): Marks {
    var m := MarksAt(s, p);
    m.(playable := if m.playable.Some? then m.playable else FirstPlay(events, p))
  }

  /** The marks leave all three timing columns empty. */
  predicate FillNothing(m: Marks, started: real) {
    && !(m.token.Some? && m.token.value >= started)
    && !(m.playable.Some? && m.playable.value >= started)
    && !(m.token.Some? && m.playable.Some? && m.playable.value >= m.token.value)
  }

  /** Room for one more unmatched terminal event. */
  predicate Room(s: State, p: Pair)
    requires s.rows != []
  {
    |s.seen + {p}| <= IDENTITIES && Current(s).unbound < IDENTITIES && |s.interruptions| < IDENTITIES
  }

  function Admitted(s: State, c: Option<Correlation>): State {
    s.(cursor := s.cursor + 1, admitted := true, admittedInput := c)
  }

  /** The interruption of an unbound turn, counted and remembered. */
  function Unmatched(s: State, p: Pair, c: Option<Correlation>): State
    requires s.rows != []
  {
    WithRow(s, Current(s).(unbound := Current(s).unbound + 1))
      .(cursor := s.cursor + 1, seen := s.seen + {p}, interruptions := s.interruptions + [Interruption(p, c)])
  }

  /** The turn reconciled with pair `p`, but for the timing columns. */
  function Reconciled(s: State, c: Option<Correlation>, p: Pair): State
    requires s.rows != []
  {
    WithRow(s, Current(s).(outcome := Interrupted))
      .(cursor := s.cursor + 2, admitted := true, admittedInput := c, pair := Some(p), seen := s.seen + {p},
        interruptions := s.interruptions + [Interruption(p, c)])
  }

  lemma LastIsFirst(s: State, last: Interruption)
    requires s.interruptions != [] && s.interruptions[|s.interruptions| - 1] == last && Candidate(s, last)
    requires forall k :: 0 <= k < |s.interruptions| - 1 ==> !Candidate(s, s.interruptions[k])
    ensures FirstCandidate(s, 0) == Some(|s.interruptions| - 1)
  {
    assert Candidate(s, s.interruptions[|s.interruptions| - 1]);
  }

  lemma NoCandidates(s: State)
    requires forall k :: 0 <= k < |s.interruptions| ==> !Candidate(s, s.interruptions[k])
    ensures FirstCandidate(s, 0).None?
  {
  }

  // ---------- the bystanders ----------

  /** What an event does before its pair is looked at: the tasks, the user's text and the marks. */
  function Taken(s: State, e: Event): Option<State>
    requires s.rows != []
  {
    var identified := Identify(s, e);
    if identified.None? then None
    else
      var tracked := TrackTask(identified.value, e);
      if tracked.None? then None
      else
        var read := Admit(tracked.value, e);
        if read.None? then None else Mark(read.value, e)
  }

  /** A bystander in a turn bound to nothing reaches these and the seen pairs. */
  function Passed(s: State, e: Event): Option<State>
    requires s.rows != []
  {
    var taken := Taken(s, e);
    if taken.None? then None else See(taken.value, e)
  }

  lemma PassedChanges(s: State, e: Event)
    requires s.rows != [] && Bystander(e) && Passed(s, e).Some?
    ensures var t := Passed(s, e).value;
            && t == s.(cursor := e.sequence, tasks := t.tasks, userSeen := t.userSeen, markers := t.markers, seen := t.seen)
            && s.seen <= t.seen
  {
    assert e.sequence == s.cursor + 1;
    TakenElsewhere(s, s, e, e);
    hide ValidPair, Taken;
  }

  lemma BystanderPasses(s: State, e: Event)
    requires s.rows != [] && s.pair.None? && Bystander(e) && FirstCandidate(s, 0).None?
    ensures Consume(s, e) == Passed(s, e)
  {
    hide ValidPair, InputCorrelation, FirstCandidate, Mark, Admit, TrackTask, Identify, Project, Reconcile;
    if Passed(s, e).Some? {
      var t := Passed(s, e).value;
      PassedChanges(s, e);
      SameCandidates(s, t, 0);
      NothingReconciled(t);
      AnotherProject(t, e);
    }
  }

  /** What is taken of a bystander looks at nothing else. */
  lemma TakenElsewhere(s: State, u: State, e: Event, f: Event)
    requires s.rows != [] && u.rows != [] && Bystander(e) && e.sequence == s.cursor + 1 && f == e.(sequence := u.cursor + 1)
    requires u.tasks == s.tasks && u.text == s.text && u.userSeen == s.userSeen && u.markers == s.markers
    ensures var t := Taken(s, e);
            Taken(u, f) == if t.Some? then Some(u.(cursor := f.sequence, tasks := t.value.tasks, userSeen := t.value.userSeen,
                                                   markers := t.value.markers)) else None
  {
    hide TrackTask, Admit, Mark, ValidPair;
    var s1, u1 := s.(cursor := e.sequence), u.(cursor := f.sequence);
    TaskElsewhere(s1, u1, e, f);
    if Identify(s, e).Some? && TrackTask(s1, e).Some? {
      var s2, u2 := TrackTask(s1, e).value, TrackTask(u1, f).value;
      ReadElsewhere(s2, u2, e, f);
      if Admit(s2, e).Some? {
        MarkElsewhere(Admit(s2, e).value, Admit(u2, f).value, e, f);
      }
    }
  }

  lemma TaskElsewhere(s: State, u: State, e: Event, f: Event)
    requires f == e.(sequence := f.sequence) && u.tasks == s.tasks
    ensures var t := TrackTask(s, e);
            && TrackTask(u, f) == (if t.Some? then Some(u.(tasks := t.value.tasks)) else None)
            && (t.Some? ==> t.value == s.(tasks := t.value.tasks))
  {
  }

  lemma ReadElsewhere(s: State, u: State, e: Event, f: Event)
    requires s.rows != [] && u.rows != [] && f == e.(sequence := f.sequence) && e.kind != InputAdmitted
    requires u.text == s.text && u.userSeen == s.userSeen
    ensures var t := Admit(s, e);
            && Admit(u, f) == (if t.Some? then Some(u.(userSeen := t.value.userSeen)) else None)
            && (t.Some? ==> t.value == s.(userSeen := t.value.userSeen))
  {
  }

  lemma MarkElsewhere(s: State, u: State, e: Event, f: Event)
    requires f == e.(sequence := f.sequence) && u.markers == s.markers
    ensures var t := Mark(s, e);
            && Mark(u, f) == (if t.Some? then Some(u.(markers := t.value.markers)) else None)
            && (t.Some? ==> t.value == s.(markers := t.value.markers))
  {
    assert ValidPair(f) == ValidPair(e);
    hide ValidPair;
  }

  /** Only the cursor tells whether the admission came before it. */
  lemma PassedAfterAdmission(s: State, e: Event, c: Option<Correlation>)
    requires s.rows != [] && Bystander(e)
    ensures var t := Passed(s, e.(sequence := s.cursor + 1));
            Passed(Admitted(s, c), e.(sequence := s.cursor + 2)) == if t.Some? then Some(Admitted(t.value, c)) else None
  {
    hide ValidPair, InputCorrelation, Taken;
    var f := e.(sequence := s.cursor + 1);
    Renumbered(e, s.cursor + 1);
    Renumbered(e, s.cursor + 2);
    TakenElsewhere(s, Admitted(s, c), f, e.(sequence := s.cursor + 2));
    TakenElsewhere(s, s, f, f);
  }

  /** Only the count, the seen pair and the memory tell whether the interruption came before it. */
  lemma PassedAfterInterruption(s: State, e: Event, p: Pair, c: Option<Correlation>)
    requires s.rows != [] && Bystander(e) && |s.seen + {p}| <= IDENTITIES
    ensures var t := Passed(s, e.(sequence := s.cursor + 1));
            Passed(Unmatched(s, p, c), e.(sequence := s.cursor + 2))
            == if t.Some? && |t.value.seen + {p}| <= IDENTITIES then Some(Unmatched(t.value, p, c)) else None
  {
    hide ValidPair, InputCorrelation, Taken, See, Unmatched;
    var f, g := e.(sequence := s.cursor + 1), e.(sequence := s.cursor + 2);
    BystanderNumbered(e, s.cursor + 1);
    TakenUnmatched(s, f, g, p, c);
    if Taken(s, f).Some? {
      SeeUnmatched(Taken(s, f).value, f, g, p, c);
    }
  }

  lemma TakenUnmatched(s: State, e: Event, f: Event, p: Pair, c: Option<Correlation>)
    requires s.rows != [] && Bystander(e) && e.sequence == s.cursor + 1 && f == e.(sequence := s.cursor + 2)
    ensures var t := Taken(s, e);
            && (t.Some? ==> t.value.rows != [] && t.value.seen == s.seen)
            && Taken(Unmatched(s, p, c), f) == if t.Some? then Some(Unmatched(t.value, p, c)) else None
  {
    hide Taken, Bystander;
    TakenElsewhere(s, Unmatched(s, p, c), e, f);
    TakenElsewhere(s, s, e, e);
  }

  lemma SeeUnmatched(s: State, e: Event, f: Event, p: Pair, c: Option<Correlation>)
    requires s.rows != [] && f == e.(sequence := f.sequence) && |s.seen + {p}| <= IDENTITIES
    ensures var t := See(s, e);
            && (t.Some? ==> t.value.rows == s.rows)
            && See(Unmatched(s, p, c), f)
               == if t.Some? && |t.value.seen + {p}| <= IDENTITIES then Some(Unmatched(t.value, p, c)) else None
  {
    assert ValidPair(f) == ValidPair(e);
    hide ValidPair, Unmatched;
    var q := ValidPair(e);
    assert Unmatched(s, p, c).seen == s.seen + {p} by { UnmatchedSeen(s, s.seen, p, c); }
    if q.Some? && (e.kind == TextGenerated || IsTerminal(e)) {
      SeenEitherWay(s.seen, p, q.value);
      UnmatchedSeen(s, s.seen + {q.value}, p, c);
    }
  }

  lemma UnmatchedSeen(s: State, seen: set<Pair>, p: Pair, c: Option<Correlation>)
    requires s.rows != []
    ensures Unmatched(s, p, c).seen == s.seen + {p}
    ensures Unmatched(s.(seen := seen), p, c) == Unmatched(s, p, c).(seen := seen + {p})
  {
  }

  lemma SeenEitherWay(seen: set<Pair>, p: Pair, q: Pair)
    ensures seen + {p} + {q} == seen + {q} + {p}
    ensures |seen + {q}| <= |seen + {q} + {p}|
  {
    Smaller(seen + {q}, seen + {q} + {p});
  }

  lemma Smaller(a: set<Pair>, b: set<Pair>)
    requires a <= b
    ensures |a| <= |b|
  {
    assert b == a + (b - a);
  }

  /** A run of bystanders changes only the cursor, the tasks, the user's text, the marks and the seen pairs. */
  lemma {:induction false} OthersPass(s: State, others: seq<Event>)
    requires s.rows != [] && s.pair.None? && s.admittedInput.None? && Bystanders(others) && Delivered(s, others).Some?
    ensures var t := Delivered(s, others).value;
            && t == s.(cursor := t.cursor, tasks := t.tasks, userSeen := t.userSeen, markers := t.markers, seen := t.seen)
            && s.seen <= t.seen
  {
    hide Consume, Passed, Bystander;
    if others != [] {
      var front, e := others[..|others| - 1], others[|others| - 1];
      OthersPass(s, front);
      var t := Delivered(s, front).value;
      NoCandidateUnadmitted(t);
      var f := e.(sequence := t.cursor + 1);
      BystanderNumbered(e, t.cursor + 1);
      BystanderPasses(t, f);
      PassedChanges(t, f);
    }
  }

  lemma BystanderNumbered(e: Event, n: int)
    requires Bystander(e)
    ensures Bystander(e.(sequence := n))
  {
  }

  /** The marks after a run of bystanders. */
  lemma {:induction false} OthersMark(s: State, others: seq<Event>, p: Pair)
    requires s.rows != [] && s.pair.None? && s.admittedInput.None? && Bystanders(others) && Delivered(s, others).Some?
    ensures MarksAt(Delivered(s, others).value, p) == MarksWith(s, others, p)
  {
    hide Consume, Passed, MarksAt, ValidPair, Bystander;
    if others != [] {
      var front, e := others[..|others| - 1], others[|others| - 1];
      OthersPass(s, front);
      OthersMark(s, front, p);
      var t := Delivered(s, front).value;
      NoCandidateUnadmitted(t);
      var f := e.(sequence := t.cursor + 1);
      BystanderNumbered(e, t.cursor + 1);
      Renumbered(e, t.cursor + 1);
      BystanderPasses(t, f);
      PassedMarks(t, f, p);
    }
  }

  lemma PassedMarks(s: State, e: Event, p: Pair)
    requires s.rows != [] && Bystander(e) && Passed(s, e).Some?
    ensures var m := MarksAt(s, p);
            MarksAt(Passed(s, e).value, p)
            == if m.playable.None? && e.kind == FirstPlayable && ValidPair(e) == Some(p) then m.(playable := Some(e.clock)) else m
  {
    hide ValidPair;
  }

  /** The admission may come before the bystanders. */
  lemma {:induction false} AdmissionThenOthers(s: State, a: Event, others: seq<Event>, i: Event)
    requires OneCandidate(s, a, i) && s.admittedInput.None? && Bystanders(others)
    ensures var t := Delivered(s, others);
            Delivered(s, [a] + others) == if t.Some? then Some(Admitted(t.value, InputCorrelation(a))) else None
    decreases |others|
  {
    hide Consume, Passed, Bystander, InputCorrelation, ValidPair;
    var c, whole := InputCorrelation(a), [a] + others;
    if others == [] {
      assert whole == [a] && whole[..0] == [];
      Renumbered(a, s.cursor + 1);
      AdmissionAlone(s, a.(sequence := s.cursor + 1));
      QuietAdmitted(s, c);
    } else {
      var front, e := others[..|others| - 1], others[|others| - 1];
      assert whole[..|whole| - 1] == [a] + front && whole[|whole| - 1] == e;
      AdmissionThenOthers(s, a, front, i);
      if Delivered(s, front).Some? {
        OthersPass(s, front);
        OneAfterAdmission(Delivered(s, front).value, e, c);
      }
    }
  }

  lemma QuietAdmitted(s: State, c: Option<Correlation>)
    requires s.rows != [] && NoOther(s, c)
    ensures FirstCandidate(Admitted(s, c), 0).None? && Reconcile(Admitted(s, c)) == Admitted(s, c)
  {
    NoCandidates(Admitted(s, c));
  }

  lemma OneAfterAdmission(s: State, e: Event, c: Option<Correlation>)
    requires s.rows != [] && s.pair.None? && s.admittedInput.None? && Bystander(e) && NoOther(s, c)
    ensures Deliver(Admitted(s, c), e) == if Deliver(s, e).Some? then Some(Admitted(Deliver(s, e).value, c)) else None
  {
    hide Consume, Passed, Bystander, Reconcile;
    NoCandidateUnadmitted(s);
    QuietAdmitted(s, c);
    BystanderNumbered(e, s.cursor + 1);
    BystanderNumbered(e, s.cursor + 2);
    BystanderPasses(s, e.(sequence := s.cursor + 1));
    BystanderPasses(Admitted(s, c), e.(sequence := s.cursor + 2));
    PassedAfterAdmission(s, e, c);
  }

  /** So may the interruption. */
  lemma {:induction false} InterruptionThenOthers(s: State, a: Event, others: seq<Event>, i: Event)
    requires OneCandidate(s, a, i) && s.admittedInput.None? && Bystanders(others)
    ensures var t, p := Delivered(s, others), ValidPair(i).value;
            (t.Some? ==> t.value.rows == s.rows)
            && Delivered(s, [i] + others)
               == if t.Some? && Room(t.value, p) then Some(Unmatched(t.value, p, InputCorrelation(i))) else None
    decreases |others|
  {
    hide Consume, Passed, Bystander, InputCorrelation, ValidPair, Unmatched;
    var c, p, whole := InputCorrelation(i), ValidPair(i).value, [i] + others;
    if others == [] {
      assert whole == [i] && whole[..0] == [];
      InterruptionAlone(s, i);
    } else {
      var front, e := others[..|others| - 1], others[|others| - 1];
      assert whole[..|whole| - 1] == [i] + front && whole[|whole| - 1] == e;
      InterruptionThenOthers(s, a, front, i);
      if Delivered(s, front).Some? {
        OthersPass(s, front);
        OneAfterInterruption(Delivered(s, front).value, e, p, c);
      }
    }
  }

  lemma InterruptionAlone(s: State, i: Event)
    requires s.rows != [] && i.kind == TurnInterrupted && ValidPair(i).Some? && s.pair.None? && s.admittedInput.None?
    requires i.clock >= 0.0 && i.size <= EVENT_BYTES && !Holds(s.interruptions, ValidPair(i).value)
    ensures var p := ValidPair(i).value;
            Deliver(s, i) == if Room(s, p) then Some(Unmatched(s, p, InputCorrelation(i))) else None
  {
    hide Consume, InputCorrelation, ValidPair, Unmatched, Reconcile, Project;
    var i', p := i.(sequence := s.cursor + 1), ValidPair(i).value;
    Renumbered(i, s.cursor + 1);
    InterruptionUnbound(s, i');
    var t := Unmatched(s, p, InputCorrelation(i));
    UnmatchedKeeps(s, p, InputCorrelation(i));
    NoCandidateUnadmitted(t);
    NothingReconciled(t);
    AnotherProject(t, i');
  }

  lemma UnmatchedKeeps(s: State, p: Pair, c: Option<Correlation>)
    requires s.rows != []
    ensures var t := Unmatched(s, p, c);
            && t.rows != [] && t.cursor == s.cursor + 1 && t.admittedInput == s.admittedInput && t.admitted == s.admitted
            && t.pair == s.pair && Current(t).inputSequence == Current(s).inputSequence
  {
  }

  lemma OneAfterInterruption(s: State, e: Event, p: Pair, c: Option<Correlation>)
    requires s.rows != [] && s.pair.None? && s.admittedInput.None? && Bystander(e)
    ensures Deliver(s, e).Some? ==> Deliver(s, e).value.rows == s.rows && (Room(Deliver(s, e).value, p) ==> Room(s, p))
    ensures Room(s, p) ==>
              var t := Deliver(s, e);
              Deliver(Unmatched(s, p, c), e) == if t.Some? && Room(t.value, p) then Some(Unmatched(t.value, p, c)) else None
  {
    hide Consume, Passed, Bystander, Unmatched, FirstCandidate;
    var f := e.(sequence := s.cursor + 1);
    NoCandidateUnadmitted(s);
    BystanderNumbered(e, s.cursor + 1);
    BystanderPasses(s, f);
    if Passed(s, f).Some? {
      PassedChanges(s, f);
      Smaller(s.seen + {p}, Passed(s, f).value.seen + {p});
    }
    if Room(s, p) {
      var u := Unmatched(s, p, c);
      UnmatchedKeeps(s, p, c);
      NoCandidateUnadmitted(u);
      BystanderNumbered(e, s.cursor + 2);
      BystanderPasses(u, e.(sequence := s.cursor + 2));
      PassedAfterInterruption(s, e, p, c);
    }
  }

  // ---------- the two events themselves ----------

  /** An admission that brings no candidate just admits. */
  lemma AdmissionAlone(s: State, a: Event)
    requires s.rows != [] && a.kind == InputAdmitted && ValidPair(a).None? && a.sequence == s.cursor + 1
    requires a.clock >= 0.0 && a.size <= EVENT_BYTES && a.inputSequence == Some(Current(s).inputSequence) && !s.admitted
    ensures Consume(s, a) == Some(Reconcile(Admitted(s, InputCorrelation(a))))
  {
    hide ValidPair, InputCorrelation, Reconcile;
    var t := Admitted(s, InputCorrelation(a));
    assert Attribute(t, a) == Some(t);
    UnpairedProject(Reconcile(t), a);
  }

  lemma UnpairedProject(s: State, e: Event)
    requires s.rows != [] && ValidPair(e).None?
    ensures Project(s, e) == s
  {
  }

  /** An interruption of an unbound turn is counted, remembered and perhaps reconciled at once. */
  lemma InterruptionUnbound(s: State, i: Event)
    requires s.rows != [] && i.kind == TurnInterrupted && ValidPair(i).Some? && i.sequence == s.cursor + 1
    requires i.clock >= 0.0 && i.size <= EVENT_BYTES && s.pair.None? && !Holds(s.interruptions, ValidPair(i).value)
    ensures var p := ValidPair(i).value;
            Consume(s, i) == if Room(s, p) then Some(Project(Reconcile(Unmatched(s, p, InputCorrelation(i))), i)) else None
  {
    hide ValidPair, InputCorrelation, Reconcile, Project, Settle, Attribute;
    var identified := s.(cursor := i.sequence);
    AttributeTerminal(identified, i);
    var p, r := ValidPair(i).value, Current(s);
    var seen := identified.(seen := s.seen + {p});
    assert !Holds(seen.interruptions, p);
    SettleIsRoom(seen, i);
    if Settle(seen, i).Some? {
      SettleUnmatched(seen, i);
    }
    TerminalConsume(s, i);
  }

  lemma SettleIsRoom(s: State, i: Event)
    requires s.rows != [] && i.kind == TurnInterrupted && ValidPair(i).Some? && s.pair.None? && !Holds(s.interruptions, ValidPair(i).value)
    ensures Settle(s, i).Some? <==> Current(s).unbound < IDENTITIES && |s.interruptions| < IDENTITIES
  {
    hide ValidPair, InputCorrelation;
  }

  lemma TerminalConsume(s: State, e: Event)
    requires IsTerminal(e) && s.rows != [] && Identify(s, e).Some?
    ensures Consume(s, e)
            == (var settled := Attribute(s.(cursor := e.sequence), e);
                if settled.None? then None else Some(Project(Reconcile(settled.value), e)))
  {
    hide Attribute, Reconcile, Project;
  }

  lemma BothReconcile(s: State, c: Option<Correlation>, p: Pair)
    requires s.rows != [] && Current(s).outcome == Pending && s.pair.None? && c.Some? && p !in s.priorSeen && NoOther(s, c)
    ensures Reconcile(Unmatched(Admitted(s, c), p, c)) == Reconciled(s, c, p)
    ensures Reconcile(Admitted(Unmatched(s, p, c), c)) == Reconciled(s, c, p)
  {
    var t := Unmatched(Admitted(s, c), p, c);
    assert t == Admitted(Unmatched(s, p, c), c);
    forall k | 0 <= k < |t.interruptions| - 1 ensures !Candidate(t, t.interruptions[k]) {
      assert t.interruptions[k] == s.interruptions[k];
    }
    LastIsFirst(t, Interruption(p, c));
    hide FirstCandidate;
    var r := Current(s);
    assert s.rows[|s.rows| - 1 := r.(unbound := r.unbound + 1)][|s.rows| - 1 := r.(outcome := Interrupted)]
           == s.rows[|s.rows| - 1 := r.(outcome := Interrupted)];
  }

  lemma InterruptionLast(s: State, a: Event, i: Event)
    requires OneCandidate(s, a, i)
    ensures var c, p := InputCorrelation(a), ValidPair(i).value;
            var t := Reconciled(s, c, p);
            Deliver(Admitted(s, c), i)
            == if Room(s, p) then Some(WithRow(t, Timed(Current(t), MarksAt(s, p), s.started))) else None
  {
    hide Consume, Reconcile, Project, Unmatched, Reconciled, Timed, InputCorrelation, ValidPair, NoOther;
    var c, p := InputCorrelation(a), ValidPair(i).value;
    var i' := i.(sequence := s.cursor + 2);
    Renumbered(i, s.cursor + 2);
    BothReconcile(s, c, p);
    InterruptionUnbound(Admitted(s, c), i');
    ProjectInterrupted(s, c, p, i');
  }

  lemma AdmissionLast(s: State, a: Event, i: Event)
    requires OneCandidate(s, a, i)
    ensures var c, p := InputCorrelation(a), ValidPair(i).value;
            Deliver(Unmatched(s, p, c), a) == Some(Reconciled(s, c, p))
  {
    hide Consume, Reconcile, Unmatched, Reconciled, InputCorrelation, ValidPair, NoOther;
    var c, p := InputCorrelation(a), ValidPair(i).value;
    Renumbered(a, s.cursor + 2);
    UnmatchedKeeps(s, p, c);
    BothReconcile(s, c, p);
    AdmissionAlone(Unmatched(s, p, c), a.(sequence := s.cursor + 2));
  }

  lemma Renumbered(e: Event, n: int)
    ensures var f := e.(sequence := n);
            InputCorrelation(f) == InputCorrelation(e) && ValidPair(f) == ValidPair(e)
  {
  }

  lemma AnotherProject(s: State, e: Event)
    requires s.rows != [] && s.pair.None?
    ensures Project(s, e) == s
  {
  }

  lemma ProjectInterrupted(s: State, c: Option<Correlation>, p: Pair, i: Event)
    requires s.rows != [] && i.kind == TurnInterrupted && ValidPair(i) == Some(p)
    ensures var t := Reconciled(s, c, p);
            t.rows != [] && Project(t, i) == WithRow(t, Timed(Current(t), MarksAt(s, p), s.started))
  {
    hide Timed, ValidPair;
  }

  /** The candidate is still the one candidate after the bystanders. */
  lemma StillOne(s: State, a: Event, others: seq<Event>, i: Event)
    requires OneCandidate(s, a, i) && s.admittedInput.None? && Bystanders(others) && Delivered(s, others).Some?
    ensures OneCandidate(Delivered(s, others).value, a, i) && Delivered(s, others).value.rows == s.rows
    ensures Delivered(s, others).value.started == s.started
  {
    hide Delivered, Bystanders, InputCorrelation, ValidPair;
    OthersPass(s, others);
  }

  /** Both orders, from the state that the bystanders alone would leave. */
  lemma BothOrders(s: State, a: Event, others: seq<Event>, i: Event)
    requires OneCandidate(s, a, i) && s.admittedInput.None? && Bystanders(others)
    ensures var c, p, t := InputCorrelation(a), ValidPair(i).value, Delivered(s, others);
            if t.Some? && t.value.rows != [] && Room(t.value, p) then
              var y := Reconciled(t.value, c, p);
              && Delivered(s, [a] + others + [i]) == Some(WithRow(y, Timed(Current(y), MarksWith(s, others, p), s.started)))
              && Delivered(s, [i] + others + [a]) == Some(y)
            else Delivered(s, [a] + others + [i]).None? && Delivered(s, [i] + others + [a]).None?
  {
    hide Deliver, Room, Reconciled, Timed, MarksWith, MarksAt, InputCorrelation, ValidPair, Bystanders, Unmatched, Admitted;
    AdmissionThenOthers(s, a, others, i);
    InterruptionThenOthers(s, a, others, i);
    var x, y := [a] + others + [i], [i] + others + [a];
    assert x[..|x| - 1] == [a] + others && y[..|y| - 1] == [i] + others;
    if Delivered(s, others).Some? {
      StillOne(s, a, others, i);
      OthersMark(s, others, ValidPair(i).value);
      InterruptionLast(Delivered(s, others).value, a, i);
      AdmissionLast(Delivered(s, others).value, a, i);
    }
  }

  lemma TimedIffFilled(r: Row, m: Marks, started: real)
    requires Untimed(r)
    ensures Timed(r, m, started) == r <==> FillNothing(m, started)
  {
  }

  /** A reachable turn that is bound to nothing has no times, and without an admission no admitted input. */
  lemma UnboundIsUntimed(inputs: seq<Input>)
    requires After(inputs).Some? && After(inputs).value.rows != []
    ensures var s := After(inputs).value;
            (s.pair.None? ==> Untimed(Current(s))) && (!s.admitted ==> s.admittedInput.None?)
  {
    hide After;
    Reachable(inputs);
    ReconciledIsOwn(inputs);
  }

  /**
   In any run, the admission and the interruption of a pending turn may change places, whatever bystanders
   arrive between them: both orders go on or are refused together, and they agree on the whole state but for
   the timing columns. These are filled in from the pair's marks only when the interruption comes last, so
   the states agree exactly when the marks at hand leave the columns empty.
   */
  lemma EitherOrder(inputs: seq<Input>, a: Event, others: seq<Event>, i: Event)
    requires After(inputs).Some? && OneCandidate(After(inputs).value, a, i) && Bystanders(others)
    ensures var s, p := After(inputs).value, ValidPair(i).value;
            var x := After(inputs + Arrivals(s.cursor, [a] + others + [i]));
            var y := After(inputs + Arrivals(s.cursor, [i] + others + [a]));
            var m := MarksWith(s, others, p);
            && (x.Some? <==> y.Some?)
            && (x.Some? ==>
                  && y.value.rows != [] && Current(y.value).outcome == Interrupted && y.value.pair == Some(p)
                  && Current(y.value).unbound == Current(s).unbound
                  && x.value == WithRow(y.value, Timed(Current(y.value), m, s.started))
                  && (x == y <==> FillNothing(m, s.started)))
  {
    hide After, Delivered, Timed, MarksWith, FillNothing, OneCandidate, Room, ValidPair, InputCorrelation;
    var s := After(inputs).value;
    Bound(s, a, i);
    var p := ValidPair(i).value;
    var m := MarksWith(s, others, p);
    UnboundIsUntimed(inputs);
    DeliveredIsARun(inputs, [a] + others + [i]);
    DeliveredIsARun(inputs, [i] + others + [a]);
    BothOrders(s, a, others, i);
    if Delivered(s, others).Some? {
      StillOne(s, a, others, i);
      var y := Reconciled(Delivered(s, others).value, InputCorrelation(a), p);
      var r := Current(y);
      assert Untimed(r);
      TimedIffFilled(r, m, s.started);
      assert Current(WithRow(y, Timed(r, m, s.started))) == Timed(r, m, s.started);
      assert WithRow(y, r) == y;
    }
  }

  lemma Bound(s: State, a: Event, i: Event)
    requires OneCandidate(s, a, i)
    ensures s.rows != [] && s.pair.None? && !s.admitted && ValidPair(i).Some?
  {
  }

  /** A turn of which only a first token has arrived, five milliseconds after it began. */
  const TOKEN_ONLY: seq<Input> := [BeginTurn("x", 1, "hello", 10.0), Receive(TOKEN)]

  const TOKEN := Event(1, FirstToken, 15.0, 1, Some("t"), Some(1), OtherRole, None, None, None, None)
  const ADMISSION := Event(0, InputAdmitted, 20.0, 1, None, None, OtherRole, None, Some(1), Some(1), None)
  const INTERRUPTION := Event(0, TurnInterrupted, 30.0, 1, Some("t"), Some(1), OtherRole, None, Some(1), Some(1), None)

  lemma AfterToken()
    ensures After(TOKEN_ONLY) == Some(Begin(Initial(), "x", 1, "hello", 10.0).value
                                      .(cursor := 1, markers := map[Pair("t", 1) := Marks(Some(15.0), None)]))
  {
    var s := Begin(Initial(), "x", 1, "hello", 10.0).value;
    var begun := TOKEN_ONLY[..1];
    assert begun == [TOKEN_ONLY[0]] && begun[..0] == [];
    assert After([]) == Some(Initial());
    assert After(begun) == Some(s);
    TokenAlone(s);
  }

  lemma TokenAlone(s: State)
    requires Begin(Initial(), "x", 1, "hello", 10.0) == Some(s)
    ensures Consume(s, TOKEN) == Some(s.(cursor := 1, markers := map[Pair("t", 1) := Marks(Some(15.0), None)]))
  {
    var t := s.(cursor := 1, markers := map[Pair("t", 1) := Marks(Some(15.0), None)]);
    assert Attribute(s.(cursor := 1), TOKEN) == Some(t);
    NoCandidateUnadmitted(t);
    NothingReconciled(t);
  }

  /** Two runs that differ in the order alone: the first token shows when the interruption comes last. */
  lemma TimingDependsOnOrder()
    ensures var x := After(TOKEN_ONLY + Arrivals(1, [ADMISSION, INTERRUPTION]));
            var y := After(TOKEN_ONLY + Arrivals(1, [INTERRUPTION, ADMISSION]));
            && x.Some? && x.value.rows != [] && Current(x.value).firstToken == Some(5.0)
            && y.Some? && y.value.rows != [] && Current(y.value).firstToken == None
  {
    hide After, Delivered, Consume;
    AfterToken();
    var s, p := After(TOKEN_ONLY).value, Pair("t", 1);
    assert OneCandidate(s, ADMISSION, INTERRUPTION);
    BothOrders(s, ADMISSION, [], INTERRUPTION);
    assert Delivered(s, []) == Some(s) by { NoneDelivered(s); }
    assert s.seen + {p} == {p} && Room(s, p);
    assert [ADMISSION] + [] + [INTERRUPTION] == [ADMISSION, INTERRUPTION];
    assert [INTERRUPTION] + [] + [ADMISSION] == [INTERRUPTION, ADMISSION];
    DeliveredIsARun(TOKEN_ONLY, [ADMISSION, INTERRUPTION]);
    DeliveredIsARun(TOKEN_ONLY, [INTERRUPTION, ADMISSION]);
  }

  lemma NoneDelivered(s: State)
    ensures Delivered(s, []) == Some(s)
  {
  }

  // ---------- the tracker itself ----------

  /** `EventTracker`, field by field; the ghost field only serves the statements. */
  class Tracker {
    var cursor: int
    var turns: seq<Row>  // the current turn is the last
    var pair: Option<Pair>
    var seen: set<Pair>
    var markers: map<Pair, Marks>
    var tasks: map<string, string>
    var text: string
    var userSeen: bool
    var admitted: bool
    var admittedInput: Option<Correlation>
    var priorSeen: set<Pair>
    var interruptions: seq<Interruption>
    var started: real
    ghost var pairs: seq<Option<Pair>>

    ghost function Snapshot(): State
      reads this
    {
      State(cursor, turns, pair, seen, markers, tasks, text, userSeen, admitted, admittedInput, priorSeen, interruptions,
            started, pairs)
    }

    constructor ()
      ensures Snapshot() == Initial()
    {
      cursor, turns, pair, seen, markers, tasks, text := 0, [], None, {}, map[], map[], "";
      userSeen, admitted, admittedInput, priorSeen, interruptions, started := false, false, None, {}, [], 0.0;
      pairs := [];
    }

    method BeginTurn(name: string, sequence: int, input: string, now: real) returns (ok: bool)
      modifies this
      ensures ok <==> Begin(old(Snapshot()), name, sequence, input, now).Some?
      ensures ok ==> Snapshot() == Begin(old(Snapshot()), name, sequence, input, now).value
    {
      if |turns| >= TURNS {
        return false;
      }
      ghost var s := Snapshot();
      pairs := if turns == [] then [] else pairs + [pair];
      StartRow(Row(name, sequence, Pending, 0, 0, None, None, None, 0), input, now);
      BeginIs(s, name, sequence, input, now);
      return true;
    }

    method StartRow(row: Row, input: string, now: real)
      modifies `turns, `pair, `text, `userSeen, `admitted, `admittedInput, `priorSeen, `interruptions, `started
      ensures turns == old(turns) + [row] && pair == None && text == input && !userSeen && !admitted
      ensures admittedInput == None && priorSeen == seen && interruptions == [] && started == now
    {
      turns := turns + [row];
      pair, text, userSeen, admitted := None, input, false, false;
      admittedInput, priorSeen, interruptions, started := None, seen, [], now;
    }

    method TrackTaskOf(e: Event) returns (ok: bool)
      modifies `tasks
      ensures ok <==> TrackTask(old(Snapshot()), e).Some?
      ensures ok ==> Snapshot() == TrackTask(old(Snapshot()), e).value
    {
      if e.kind == TaskState || e.kind == TaskResult {
        if e.task.None? || (e.task.value.0 !in tasks && |tasks| >= TASKS) {
          return false;
        }
        tasks := tasks[e.task.value.0 := e.task.value.1];
      }
      return true;
    }

    method AdmitInput(e: Event) returns (ok: bool)
      requires turns != []
      modifies `userSeen, `admittedInput, `admitted
      ensures turns != []
      ensures ok <==> Admit(old(Snapshot()), e).Some?
      ensures ok ==> Snapshot() == Admit(old(Snapshot()), e).value
    {
      hide InputCorrelation;
      if e.kind == TranscriptFinal && e.role == User {
        if e.text != Some(text) {
          return false;
        }
        userSeen := true;
      }
      if e.kind == InputAdmitted {
        if e.inputSequence != Some(turns[|turns| - 1].inputSequence) {
          return false;
        }
        if !admitted {
          admittedInput := InputCorrelation(e);
        }
        admitted := true;
      }
      return true;
    }

    method MarkTime(e: Event) returns (ok: bool)
      modifies `markers
      ensures ok <==> Mark(old(Snapshot()), e).Some?
      ensures ok ==> Snapshot() == Mark(old(Snapshot()), e).value
    {
      hide ValidPair;
      var p := ValidPair(e);
      if (e.kind == FirstToken || e.kind == FirstPlayable) && p.Some? {
        if p.value !in markers && |markers| >= IDENTITIES {
          return false;
        }
        var m := if p.value in markers then markers[p.value] else Marks(None, None);
        if e.kind == FirstToken {
          if m.token.None? {
            m := m.(token := Some(e.clock));
          }
        } else if m.playable.None? {
          m := m.(playable := Some(e.clock));
        }
        markers := markers[p.value := m];
      }
      return true;
    }

    method BindPair(e: Event)
      modifies `pair
      ensures Snapshot() == Bind(old(Snapshot()), e)
    {
      hide ValidPair;
      var p := ValidPair(e);
      if e.kind == FirstToken && pair.None? && userSeen && admitted && p.Some? && p.value !in seen {
        pair := p;
      }
    }

    method SeePair(e: Event) returns (ok: bool)
      modifies `seen
      ensures ok <==> See(old(Snapshot()), e).Some?
      ensures ok ==> Snapshot() == See(old(Snapshot()), e).value
    {
      hide ValidPair;
      var p := ValidPair(e);
      if p.Some? && (e.kind == TextGenerated || IsTerminal(e)) {
        seen := seen + {p.value};
        return |seen| <= IDENTITIES;
      }
      return true;
    }

    method SettleTurn(e: Event) returns (ok: bool)
      requires turns != []
      modifies `turns, `interruptions
      ensures ok <==> Settle(old(Snapshot()), e).Some?
      ensures ok ==> Snapshot() == Settle(old(Snapshot()), e).value
    {
      hide ValidPair, InputCorrelation, Holds;
      var p, last := ValidPair(e), |turns| - 1;
      if !IsTerminal(e) {
        return true;
      }
      if p.Some? && p == pair {
        if turns[last].outcome == Pending {
          turns := turns[last := turns[last].(outcome := if e.kind == TurnCompleted then Completed else Interrupted)];
        }
        return true;
      }
      if turns[last].unbound >= IDENTITIES {
        return false;
      }
      turns := turns[last := turns[last].(unbound := turns[last].unbound + 1)];
      ok := true;
      if p.Some? && e.kind == TurnInterrupted {
        ok := Remember(p.value, InputCorrelation(e));
      }
    }

    /** The first interruption of a pair is kept. */
    method Remember(p: Pair, c: Option<Correlation>) returns (ok: bool)
      modifies `interruptions
      ensures ok <==> Holds(old(interruptions), p) || |old(interruptions)| < IDENTITIES
      ensures ok ==> interruptions == old(interruptions) + if Holds(old(interruptions), p) then [] else [Interruption(p, c)]
    {
      var known := exists k :: 0 <= k < |interruptions| && interruptions[k].pair == p;
      if !known {
        if |interruptions| >= IDENTITIES {
          return false;
        }
        interruptions := interruptions + [Interruption(p, c)];
      }
      return true;
    }

    method AttributeEvent(e: Event) returns (ok: bool)
      requires turns != []
      modifies `markers, `pair, `seen, `turns, `interruptions
      ensures ok <==> Attribute(old(Snapshot()), e).Some?
      ensures ok ==> Snapshot() == Attribute(old(Snapshot()), e).value
    {
      hide ValidPair, Mark, Bind, See, Settle;
      ok := MarkTime(e);
      if !ok {
        return;
      }
      BindPair(e);
      ok := SeePair(e);
      if !ok {
        return;
      }
      ok := SettleTurn(e);
    }

    /** `_reconcile_interruptions`: the first candidate, in the order of arrival. */
    method ReconcileInterruptions()
      requires turns != []
      modifies `turns, `pair
      ensures Snapshot() == Reconcile(old(Snapshot()))
    {
      var last := |turns| - 1;
      if admittedInput.None? || turns[last].outcome != Pending {
        NoCandidateUnadmitted(Snapshot());
        return;
      }
      ghost var s := Snapshot();
      for k := 0 to |interruptions|
        invariant Snapshot() == s && FirstCandidate(s, 0) == FirstCandidate(s, k)
      {
        var i := interruptions[k];
        if i.correlation != admittedInput || i.pair in priorSeen || (pair.Some? && Some(i.pair) != pair) {
          continue;
        }
        pair := Some(i.pair);
        turns := turns[last := turns[last].(outcome := Interrupted, unbound := turns[last].unbound - 1)];
        return;
      }
    }

    method ProjectRow(e: Event)
      requires turns != []
      modifies `turns
      ensures Snapshot() == Project(old(Snapshot()), e)
    {
      hide ValidPair, Timed;
      var p := ValidPair(e);
      if p.None? || p != pair {
        return;
      }
      var row := turns[|turns| - 1];
      if e.kind == TextGenerated {
        row := row.(assistantSegments := row.assistantSegments + 1);
      } else if e.kind == TranscriptFinal && e.role == Assistant {
        row := row.(deliveredSegments := row.deliveredSegments + 1);
      }
      row := TimeRow(row, if p.value in markers then markers[p.value] else Marks(None, None));
      turns := turns[|turns| - 1 := row];
    }

    method TimeRow(row: Row, marks: Marks) returns (timed: Row)
      ensures timed == Timed(row, marks, started)
    {
      timed := row;
      if marks.token.Some? && marks.token.value >= started {
        timed := timed.(firstToken := Some(marks.token.value - started));
      }
      if marks.playable.Some? && marks.playable.value >= started {
        timed := timed.(firstPlayable := Some(marks.playable.value - started));
      }
      if marks.token.Some? && marks.playable.Some? && marks.playable.value >= marks.token.value {
        timed := timed.(tokenToPlayable := Some(marks.playable.value - marks.token.value));
      }
    }

    method IdentifyEvent(e: Event) returns (ok: bool)
      modifies `cursor
      ensures ok <==> Identify(old(Snapshot()), e).Some?
      ensures ok ==> Snapshot() == Identify(old(Snapshot()), e).value
    {
      if !(e.sequence == cursor + 1 && e.clock >= 0.0 && e.size <= EVENT_BYTES) {
        return false;
      }
      cursor := e.sequence;
      return true;
    }

    method SeeBetweenTurns(e: Event)
      modifies `seen
      ensures var s := old(Snapshot());
              Snapshot() == if ValidPair(e).Some? then s.(seen := s.seen + {ValidPair(e).value}) else s
    {
      if ValidPair(e).Some? {
        seen := seen + {ValidPair(e).value};
      }
    }

    lemma SnapshotRows()
      ensures Snapshot().rows == turns
    {
    }

    /** One pass of the loop. */
    method ConsumeOne(e: Event) returns (ok: bool)
      modifies this
      ensures ok <==> Consume(old(Snapshot()), e).Some?
      ensures ok ==> Snapshot() == Consume(old(Snapshot()), e).value
    {
      hide ValidPair, Identify, TrackTask, Admit, Attribute, Reconcile, Project, Snapshot;
      SnapshotRows();
      ok := IdentifyEvent(e);
      if !ok {
        return;
      }
      ok := TrackTaskOf(e);
      if !ok {
        return;
      }
      SnapshotRows();
      if turns == [] {
        SeeBetweenTurns(e);
        return;
      }
      ok := AdmitInput(e);
      if !ok {
        return;
      }
      ok := AttributeEvent(e);
      if !ok {
        return;
      }
      SnapshotRows();
      ReconcileInterruptions();
      SnapshotRows();
      ProjectRow(e);
    }

    /** `consume` on one batch: the events in order, stopping at the first that raises. */
    method ConsumeBatch(batch: seq<Event>) returns (ok: bool)
      modifies this
      ensures ok <==> |batch| <= 256 && Folded(old(Snapshot()), batch).Some?
      ensures ok ==> Snapshot() == Folded(old(Snapshot()), batch).value
    {
      hide Consume;
      if |batch| > BATCH {
        return false;
      }
      ghost var s := Snapshot();
      assert batch[..0] == [];
      for k := 0 to |batch|
        invariant Folded(s, batch[..k]) == Some(Snapshot())
      {
        assert batch[..k + 1][..k] == batch[..k];
        ok := ConsumeOne(batch[k]);
        if !ok {
          FoldStops(s, batch, k + 1);
          return;
        }
      }
      assert batch[..|batch|] == batch;
      return true;
    }
  }

  lemma BeginIs(s: State, name: string, sequence: int, text: string, now: real)
    requires |s.rows| < TURNS
    ensures var t := s.(pairs := if s.rows == [] then [] else s.pairs + [s.pair]);
            Begin(s, name, sequence, text, now)
            == Some(t.(rows := t.rows + [Row(name, sequence, Pending, 0, 0, None, None, None, 0)], pair := None, text := text,
                       userSeen := false, admitted := false, admittedInput := None, priorSeen := t.seen, interruptions := [],
                       started := now))
  {
  }

  lemma NoCandidateUnadmitted(s: State)
    ensures s.admittedInput.None? ==> FirstCandidate(s, 0).None?
  {
  }

  /** The state after a sequence of events. */
  function Folded(s: State, batch: seq<Event>): Option<State> {
    if batch == [] then Some(s)
    else
      var before := Folded(s, batch[..|batch| - 1]);
      if before.None? then None else Consume(before.value, batch[|batch| - 1])
  }

  lemma {:induction false} FoldStops(s: State, batch: seq<Event>, k: nat)
    requires k <= |batch| && Folded(s, batch[..k]).None?
    ensures Folded(s, batch).None?
    decreases |batch|
  {
    hide Consume;
    if k == |batch| {
      assert batch[..k] == batch;
    } else {
      assert batch[..|batch| - 1][..k] == batch[..k];
      FoldStops(s, batch[..|batch| - 1], k);
    }
  }
}
