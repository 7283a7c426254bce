/** What the tracker's fields are worth: each of them, and every column of a receipt, is read off the run itself. */
module TurnHistory {
  import opened Bytes
  import opened EventTracker

  // ---------- what an event says ----------

  /** A pair is named by a turn and a positive generation. */
  lemma NamedPair(e: Event, p: Pair)
    ensures ValidPair(e) == Some(p) <==> e.turn == Some(p.turn) && e.generation == Some(p.generation) && p.generation > 0
  {
  }

  /** A correlation is carried by two numbers from 1 on, below 2^53. */
  lemma CarriedCorrelation(e: Event, c: Correlation)
    ensures InputCorrelation(e) == Some(c)
            <==> && e.inputSequence == Some(c.sequence) && 1 <= c.sequence < 0x20_0000_0000_0000
                 && e.binding == Some(c.binding) && 1 <= c.binding < 0x20_0000_0000_0000
  {
  }

  predicate Speaks(e: Event) {
    e.kind == TranscriptFinal && e.role == User
  }

  predicate Ends(e: Event) {
    e.kind == TurnCompleted || e.kind == TurnInterrupted
  }

  /** What makes a pair known: text or an end. */
  predicate Shows(e: Event, p: Pair) {
    ValidPair(e) == Some(p) && (e.kind == TextGenerated || Ends(e))
  }

  // ---------- the run ----------

  predicate Begun(inputs: seq<Input>) {
    exists k :: 0 <= k < |inputs| && inputs[k].BeginTurn?
  }

  /** The events since the current turn began. */
  function Since(inputs: seq<Input>): (events: seq<Event>)
    ensures |events| <= |inputs|
  {
    if inputs == [] || inputs[|inputs| - 1].BeginTurn? then [] else Since(inputs[..|inputs| - 1]) + [inputs[|inputs| - 1].event]
  }

  /** The inputs before the current turn began. */
  function Earlier(inputs: seq<Input>): seq<Input> {
    if inputs == [] || inputs[|inputs| - 1].BeginTurn? then inputs[..Least0(|inputs|)] else Earlier(inputs[..|inputs| - 1])
  }

  /** The input that began the current turn. */
  function Opening(inputs: seq<Input>): Option<Input> {
    if inputs == [] then None
    else if inputs[|inputs| - 1].BeginTurn? then Some(inputs[|inputs| - 1]) else Opening(inputs[..|inputs| - 1])
  }

  function FirstAdmitted(events: seq<Event>): Option<Event> {
    if events == [] then None
    else
      var before, e := FirstAdmitted(events[..|events| - 1]), events[|events| - 1];
      if before.Some? then before else if e.kind == InputAdmitted then Some(e) else None
  }

  /** Known to a run: shown by text or an end, or by any event at all before the first turn. */
  predicate KnownIn(inputs: seq<Input>, p: Pair) {
    exists k :: 0 <= k < |inputs| && inputs[k].Receive? && ShownAt(inputs, k, p)
  }

  predicate ShownAt(inputs: seq<Input>, k: nat, p: Pair)
    requires k < |inputs| && inputs[k].Receive?
  {
    if Begun(inputs[..k]) then Shows(inputs[k].event, p) else ValidPair(inputs[k].event) == Some(p)
  }

  /** The clock of the first event of a kind and a pair, once a turn has begun. */
  function FirstClock(inputs: seq<Input>, kind: Kind, p: Pair): Option<real> {
    if inputs == [] then None
    else
      var front, last := inputs[..|inputs| - 1], inputs[|inputs| - 1];
      var before := FirstClock(front, kind, p);
      if before.None? && last.Receive? && Begun(front) && last.event.kind == kind && ValidPair(last.event) == Some(p)
      then Some(last.event.clock) else before
  }

  // ---------- one event ----------

  /** The stages of one event, and the fields that each of them may change. */
  lemma StagesOfConsume(s: State, e: Event)
    requires s.rows != [] && Consume(s, e).Some?
    ensures Identify(s, e).Some? && TrackTask(Identify(s, e).value, e).Some?
    ensures var u := TrackTask(Identify(s, e).value, e).value;
            && u == s.(cursor := e.sequence, tasks := u.tasks) && Admit(u, e).Some?
            && var a := Admit(u, e).value;
               && a == u.(userSeen := a.userSeen, admitted := a.admitted, admittedInput := a.admittedInput)
               && Attribute(a, e).Some? && Consume(s, e).value == Project(Reconcile(Attribute(a, e).value), e)
  {
    hide ValidPair, Attribute, Reconcile, Project, TrackTask, Identify;
    TrackedSame(s, e);
    AdmittedRows(TrackTask(Identify(s, e).value, e).value, e);
  }

  lemma StagesOfAttribute(s: State, e: Event)
    requires s.rows != [] && Attribute(s, e).Some?
    ensures Mark(s, e).Some?
    ensures var m := Mark(s, e).value;
            && m == s.(markers := m.markers) && Bind(m, e) == m.(pair := Bind(m, e).pair) && See(Bind(m, e), e).Some?
            && var n := See(Bind(m, e), e).value;
               && n == Bind(m, e).(seen := n.seen) && Settle(n, e).Some?
               && var g := Settle(n, e).value;
                  && Attribute(s, e).value == g && g == n.(rows := g.rows, interruptions := g.interruptions)
                  && g.rows == n.rows[|n.rows| - 1 := Current(g)]
  {
    hide ValidPair, Settle;
    SettleShape(See(Bind(Mark(s, e).value, e), e).value, e);
  }

  lemma SettleShape(s: State, e: Event)
    requires s.rows != [] && Settle(s, e).Some?
    ensures var g := Settle(s, e).value;
            && g == s.(rows := g.rows, interruptions := g.interruptions) && g.rows == s.rows[|s.rows| - 1 := Current(g)]
  {
    hide ValidPair, InputCorrelation, Holds;
    assert s.rows[|s.rows| - 1 := Current(s)] == s.rows;
  }

  lemma ReconcileShape(s: State)
    requires s.rows != []
    ensures var r := Reconcile(s);
            && r == s.(rows := r.rows, pair := r.pair) && r.rows == s.rows[|s.rows| - 1 := Current(r)]
            && Current(r) == Current(s).(outcome := Current(r).outcome, unbound := Current(r).unbound)
  {
    hide FirstCandidate;
    assert s.rows[|s.rows| - 1 := Current(s)] == s.rows;
  }

  lemma ProjectShape(s: State, e: Event)
    requires s.rows != []
    ensures var t := Project(s, e);
            t == s.(rows := t.rows) && |t.rows| == |s.rows| && Current(t).inputSequence == Current(s).inputSequence
            && Current(t).name == Current(s).name
  {
    hide ValidPair;
  }

  /** What one event does to the fields that no row holds. */
  lemma ConsumeReads(s: State, e: Event)
    requires s.rows != [] && Consume(s, e).Some?
    ensures var t := Consume(s, e).value;
            && |t.rows| == |s.rows| && t.text == s.text && t.started == s.started && t.priorSeen == s.priorSeen
            && Current(t).inputSequence == Current(s).inputSequence && Current(t).name == Current(s).name
            && t.userSeen == (s.userSeen || Speaks(e)) && (Speaks(e) ==> e.text == Some(s.text))
            && t.admitted == (s.admitted || e.kind == InputAdmitted)
            && (e.kind == InputAdmitted ==> e.inputSequence == Some(Current(s).inputSequence))
            && t.admittedInput == (if !s.admitted && e.kind == InputAdmitted then InputCorrelation(e) else s.admittedInput)
    ensures forall p :: p in Consume(s, e).value.seen <==> p in s.seen || Shows(e, p)
    ensures Mark(s, e).Some? && Consume(s, e).value.markers == Mark(s, e).value.markers
  {
    hide Consume, ValidPair, Identify, TrackTask, Admit, Attribute, Mark, Bind, See, Settle, Reconcile, Project;
    hide InputCorrelation, Shows, Speaks;
    StagesOfConsume(s, e);
    var u := TrackTask(Identify(s, e).value, e).value;
    var a := Admit(u, e).value;
    AdmitReads(u, e);
    StagesOfAttribute(a, e);
    MarkLooksAtMarks(s, a, e);
    SeeReads(Bind(Mark(a, e).value, e), e);
    var g := Attribute(a, e).value;
    SettleSame(See(Bind(Mark(a, e).value, e), e).value, e);
    SettleName(See(Bind(Mark(a, e).value, e), e).value, e);
    ReconcileShape(g);
    ProjectShape(Reconcile(g), e);
  }

  lemma AdmitReads(s: State, e: Event)
    requires s.rows != [] && Admit(s, e).Some?
    ensures var t := Admit(s, e).value;
            && t.userSeen == (s.userSeen || Speaks(e)) && (Speaks(e) ==> e.text == Some(s.text))
            && t.admitted == (s.admitted || e.kind == InputAdmitted)
            && (e.kind == InputAdmitted ==> e.inputSequence == Some(Current(s).inputSequence))
            && t.admittedInput == (if !s.admitted && e.kind == InputAdmitted then InputCorrelation(e) else s.admittedInput)
  {
    hide InputCorrelation;
  }

  lemma MarkLooksAtMarks(s: State, t: State, e: Event)
    requires t.markers == s.markers
    ensures Mark(s, e).Some? <==> Mark(t, e).Some?
    ensures Mark(s, e).Some? ==> Mark(t, e).value.markers == Mark(s, e).value.markers
  {
    hide ValidPair;
  }

  lemma SeeReads(s: State, e: Event)
    requires See(s, e).Some?
    ensures forall p :: p in See(s, e).value.seen <==> p in s.seen || Shows(e, p)
  {
    hide ValidPair;
  }

  lemma SettleName(s: State, e: Event)
    requires s.rows != [] && Settle(s, e).Some?
    ensures Current(Settle(s, e).value).name == Current(s).name
  {
    hide ValidPair, InputCorrelation, Holds;
  }

  /** Between turns an event only moves the cursor, the tasks and the known pairs. */
  lemma BetweenTurns(s: State, e: Event)
    requires s.rows == [] && Consume(s, e).Some?
    ensures var t := Consume(s, e).value;
            && t == s.(cursor := t.cursor, tasks := t.tasks, seen := t.seen)
            && forall p :: p in t.seen <==> p in s.seen || ValidPair(e) == Some(p)
  {
    hide ValidPair;
  }

  // ---------- the turn and its input ----------

  lemma {:induction false} RowsIffBegun(inputs: seq<Input>)
    requires After(inputs).Some?
    ensures After(inputs).value.rows != [] <==> Begun(inputs)
    ensures Begun(inputs) <==> Opening(inputs).Some?
  {
    hide Consume;
    if inputs != [] {
      var front, last := inputs[..|inputs| - 1], inputs[|inputs| - 1];
      RowsIffBegun(front);
      assert forall k :: 0 <= k < |front| ==> front[k] == inputs[k];
      if last.Receive? {
        StaysBegun(After(front).value, last.event);
      }
    }
  }

  lemma StaysBegun(s: State, e: Event)
    requires Consume(s, e).Some?
    ensures |Consume(s, e).value.rows| == |s.rows|
  {
    if s.rows == [] {
      BetweenTurns(s, e);
    } else {
      ConsumeReads(s, e);
    }
  }

  /** The current row, the text to be heard and the clock to count from are those that the turn began with. */
  lemma {:induction false} TurnIsItsOpening(inputs: seq<Input>)
    requires After(inputs).Some? && After(inputs).value.rows != []
    ensures var s := After(inputs).value;
            && Opening(inputs)
               == Some(BeginTurn(Current(s).name, Current(s).inputSequence, s.text, s.started))
  {
    hide Consume;
    var front, last := inputs[..|inputs| - 1], inputs[|inputs| - 1];
    if last.Receive? {
      RowsBefore(After(front).value, last.event);
      TurnIsItsOpening(front);
      ConsumeReads(After(front).value, last.event);
    }
  }

  ghost predicate SomeSpeaks(events: seq<Event>) {
    exists k :: 0 <= k < |events| && Speaks(events[k])
  }

  /**
   The user was heard exactly if a final transcript of theirs is among the events, and each carries the
   turn's text; the input was admitted exactly if an admission is, each for the turn's input; the admitted
   input is what the first of them carries.
   */
  ghost predicate ReadFrom(s: State, events: seq<Event>)
    requires s.rows != []
  {
    && (s.userSeen <==> SomeSpeaks(events))
    && (forall e :: e in events && Speaks(e) ==> e.text == Some(s.text))
    && (s.admitted <==> FirstAdmitted(events).Some?)
    && (forall e :: e in events && e.kind == InputAdmitted ==> e.inputSequence == Some(Current(s).inputSequence))
    && s.admittedInput == (if FirstAdmitted(events).Some? then InputCorrelation(FirstAdmitted(events).value) else None)
  }

  /** What was heard and what was admitted is what the events since the turn began say. */
  lemma {:induction false} AdmissionIsRead(inputs: seq<Input>)
    requires After(inputs).Some? && After(inputs).value.rows != []
    ensures ReadFrom(After(inputs).value, Since(inputs))
  {
    hide Consume, ReadFrom;
    var front, last := inputs[..|inputs| - 1], inputs[|inputs| - 1];
    if last.Receive? {
      RowsBefore(After(front).value, last.event);
      AdmissionIsRead(front);
      ConsumeReads(After(front).value, last.event);
      ReadOneMore(After(front).value, After(inputs).value, Since(front), last.event);
    } else {
      NothingRead(After(inputs).value);
    }
  }

  lemma NothingRead(s: State)
    requires s.rows != [] && !s.userSeen && !s.admitted && s.admittedInput.None?
    ensures ReadFrom(s, [])
  {
  }

  lemma ReadOneMore(s: State, t: State, events: seq<Event>, e: Event)
    requires s.rows != [] && t.rows != [] && ReadFrom(s, events)
    requires t.text == s.text && Current(t).inputSequence == Current(s).inputSequence
    requires t.userSeen == (s.userSeen || Speaks(e)) && (Speaks(e) ==> e.text == Some(s.text))
    requires t.admitted == (s.admitted || e.kind == InputAdmitted)
    requires e.kind == InputAdmitted ==> e.inputSequence == Some(Current(s).inputSequence)
    requires t.admittedInput == if !s.admitted && e.kind == InputAdmitted then InputCorrelation(e) else s.admittedInput
    ensures ReadFrom(t, events + [e])
  {
    hide InputCorrelation, SomeSpeaks;
    assert (events + [e])[..|events|] == events;
    SpeaksOnceMore(events, e);
  }

  lemma SpeaksOnceMore(events: seq<Event>, e: Event)
    ensures SomeSpeaks(events + [e]) <==> SomeSpeaks(events) || Speaks(e)
  {
    var more := events + [e];
    if SomeSpeaks(events) {
      var k :| 0 <= k < |events| && Speaks(events[k]);
      assert more[k] == events[k];
    }
    assert more[|events|] == e;
  }

  // ---------- the known pairs ----------

  lemma KnownOnceMore(inputs: seq<Input>, p: Pair)
    requires inputs != []
    ensures var front, last := inputs[..|inputs| - 1], inputs[|inputs| - 1];
            KnownIn(inputs, p) <==> KnownIn(front, p) || (last.Receive? && ShownAt(inputs, |inputs| - 1, p))
  {
    var front := inputs[..|inputs| - 1];
    assert forall k :: 0 <= k < |front| ==> front[..k] == inputs[..k] && front[k] == inputs[k];
    hide Begun, Shows;
    if KnownIn(front, p) {
      var k :| 0 <= k < |front| && front[k].Receive? && ShownAt(front, k, p);
      assert ShownAt(inputs, k, p);
    }
    if KnownIn(inputs, p) {
      var k :| 0 <= k < |inputs| && inputs[k].Receive? && ShownAt(inputs, k, p);
      assert k < |front| ==> ShownAt(front, k, p);
    }
  }

  /** The tracker has seen exactly the pairs that the run has shown. */
  lemma {:induction false} SeenIsKnown(inputs: seq<Input>, p: Pair)
    requires After(inputs).Some?
    ensures p in After(inputs).value.seen <==> KnownIn(inputs, p)
  {
    hide Consume, KnownIn, Shows;
    if inputs == [] {
      assert !KnownIn(inputs, p) by { NothingKnown(p); }
    } else {
      var front, last := inputs[..|inputs| - 1], inputs[|inputs| - 1];
      SeenIsKnown(front, p);
      KnownOnceMore(inputs, p);
      RowsIffBegun(front);
      if last.Receive? {
        if Begun(front) {
          ConsumeReads(After(front).value, last.event);
        } else {
          BetweenTurns(After(front).value, last.event);
        }
      }
    }
  }

  lemma NothingKnown(p: Pair)
    ensures !KnownIn([], p)
  {
  }

  /** The pairs that a turn may not be bound to are those shown before it began. */
  lemma {:induction false} PriorIsKnownEarlier(inputs: seq<Input>, p: Pair)
    requires After(inputs).Some? && After(inputs).value.rows != []
    ensures After(Earlier(inputs)).Some?
    ensures p in After(inputs).value.priorSeen <==> KnownIn(Earlier(inputs), p)
  {
    hide Consume, KnownIn;
    var front, last := inputs[..|inputs| - 1], inputs[|inputs| - 1];
    if last.Receive? {
      RowsBefore(After(front).value, last.event);
      PriorIsKnownEarlier(front, p);
      ConsumeReads(After(front).value, last.event);
    } else {
      SeenIsKnown(front, p);
    }
  }

  // ---------- the marks ----------

  /** A pair's marks are the clocks of its first token and of its first playable audio. */
  lemma {:induction false} MarksAreFirst(inputs: seq<Input>, p: Pair)
    requires After(inputs).Some?
    ensures MarksAt(After(inputs).value, p) == Marks(FirstClock(inputs, FirstToken, p), FirstClock(inputs, FirstPlayable, p))
  {
    hide Consume, Mark, ValidPair;
    if inputs != [] {
      var front, last := inputs[..|inputs| - 1], inputs[|inputs| - 1];
      MarksAreFirst(front, p);
      RowsIffBegun(front);
      if last.Receive? {
        if Begun(front) {
          ConsumeReads(After(front).value, last.event);
          MarkIsFirst(After(front).value, last.event, p);
        } else {
          BetweenTurns(After(front).value, last.event);
        }
      }
    }
  }

  lemma MarkIsFirst(s: State, e: Event, p: Pair)
    requires Mark(s, e).Some?
    ensures var m, n := MarksAt(s, p), MarksAt(Mark(s, e).value, p);
            && n.token == (if m.token.None? && e.kind == FirstToken && ValidPair(e) == Some(p) then Some(e.clock) else m.token)
            && n.playable == (if m.playable.None? && e.kind == FirstPlayable && ValidPair(e) == Some(p) then Some(e.clock)
                              else m.playable)
  {
    hide ValidPair;
  }

  // ---------- the outcome ----------

  /** The pair bound when the last input of a run has been taken. */
  function BoundAfter(inputs: seq<Input>): Option<Pair> {
    if After(inputs).Some? then After(inputs).value.pair else None
  }

  /**
   The first terminal event since the turn began that was the bound pair's when it arrived, while nothing had
   been reconciled.
   */
  function DecidedBy(inputs: seq<Input>): Option<Kind> {
    if inputs == [] || inputs[|inputs| - 1].BeginTurn? then None
    else
      var front, e := inputs[..|inputs| - 1], inputs[|inputs| - 1].event;
      if DecidedBy(front).Some? then DecidedBy(front)
      else if !ReconciledIn(front) && Ends(e) && ValidPair(e).Some? && ValidPair(e) == BoundAfter(front) then Some(e.kind)
      else None
  }

  lemma SettleDecides(s: State, e: Event)
    requires s.rows != [] && Settle(s, e).Some?
    ensures Current(Settle(s, e).value).outcome
            == (if Current(s).outcome == Pending && Ends(e) && ValidPair(e).Some? && ValidPair(e) == s.pair
                then (if e.kind == TurnCompleted then Completed else Interrupted) else Current(s).outcome)
  {
    hide ValidPair, InputCorrelation, Holds;
  }

  lemma BindLeavesEnds(s: State, e: Event)
    requires Ends(e)
    ensures Bind(s, e) == s
  {
    hide ValidPair;
  }

  lemma ConsumeDecides(s: State, e: Event)
    requires Inv(s) && s.rows != [] && Consume(s, e).Some?
    ensures Consume(s, e).value.rows != []
    ensures Current(Consume(s, e).value).outcome
            == (if Current(s).outcome != Pending then Current(s).outcome
                else if Ends(e) && ValidPair(e).Some? && ValidPair(e) == s.pair
                then (if e.kind == TurnCompleted then Completed else Interrupted)
                else if Reconciles(s, e) then Interrupted else Pending)
  {
    ConsumeCounts(s, e);
    StagesOfConsume(s, e);
    var a := Admit(TrackTask(Identify(s, e).value, e).value, e).value;
    StagesOfAttribute(a, e);
    var n, g := See(Bind(Mark(a, e).value, e), e).value, Attribute(a, e).value;
    SettleDecides(n, e);
    ProjectedRow(Reconcile(g), e);
    if Ends(e) {
      BindLeavesEnds(Mark(a, e).value, e);
    }
    if Current(g).outcome != Pending {
      NothingReconciled(g);
    }
    hide Inv, Consume, ValidPair, Identify, TrackTask, Admit, Attribute, Mark, Bind, See, Settle, Reconcile, Project;
  }

  /**
   Over any run: the turn is completed exactly if the event that decided it was a completion, interrupted
   exactly if that event was an interruption or the turn was reconciled, and never both.
   */
  lemma {:induction false} OutcomeIsDecided(inputs: seq<Input>)
    requires After(inputs).Some? && After(inputs).value.rows != []
    ensures var o := Current(After(inputs).value).outcome;
            && (o == Completed <==> DecidedBy(inputs) == Some(TurnCompleted))
            && (o == Interrupted <==> DecidedBy(inputs) == Some(TurnInterrupted) || ReconciledIn(inputs))
            && (o == Pending <==> DecidedBy(inputs).None? && !ReconciledIn(inputs))
            && !(DecidedBy(inputs).Some? && ReconciledIn(inputs))
  {
    hide Inv, Consume, Reconciles, ValidPair;
    var front, last := inputs[..|inputs| - 1], inputs[|inputs| - 1];
    if last.Receive? {
      RowsBefore(After(front).value, last.event);
      Reachable(front);
      OutcomeIsDecided(front);
      ConsumeDecides(After(front).value, last.event);
      SettledStays(After(front).value, last.event);
      MatchedIsNotReconciled(After(front).value, last.event);
    }
  }

  lemma MatchedIsNotReconciled(s: State, e: Event)
    ensures Ends(e) && ValidPair(e).Some? && ValidPair(e) == s.pair ==> !Reconciles(s, e)
  {
  }

  // ---------- the remembered interruptions ----------

  predicate Recalls(interruptions: seq<Interruption>, p: Pair) {
    exists i :: i in interruptions && i.pair == p
  }

  /** The first interruption of each pair since the turn began, unless the pair was the bound one. */
  function Remembered(inputs: seq<Input>): seq<Interruption> {
    if inputs == [] || inputs[|inputs| - 1].BeginTurn? then []
    else
      var front, e := inputs[..|inputs| - 1], inputs[|inputs| - 1].event;
      Remembered(front) + Recalled(e, BoundAfter(front), Remembered(front))
  }

  function Recalled(e: Event, bound: Option<Pair>, before: seq<Interruption>): seq<Interruption> {
    if e.kind == TurnInterrupted && ValidPair(e).Some? && ValidPair(e) != bound && !Recalls(before, ValidPair(e).value)
    then [Interruption(ValidPair(e).value, InputCorrelation(e))] else []
  }

  lemma HoldsIsRecalls(interruptions: seq<Interruption>, p: Pair)
    ensures Holds(interruptions, p) <==> Recalls(interruptions, p)
  {
    if Recalls(interruptions, p) {
      var i :| i in interruptions && i.pair == p;
      var k :| 0 <= k < |interruptions| && interruptions[k] == i;
    }
  }

  lemma SettleRemembers(s: State, e: Event)
    requires s.rows != [] && Settle(s, e).Some?
    ensures Settle(s, e).value.interruptions == s.interruptions + Recalled(e, s.pair, s.interruptions)
  {
    hide ValidPair, InputCorrelation, Holds, Recalls;
    if ValidPair(e).Some? {
      HoldsIsRecalls(s.interruptions, ValidPair(e).value);
    }
    assert s.interruptions + [] == s.interruptions;
  }

  lemma ConsumeRemembers(s: State, e: Event)
    requires s.rows != [] && Consume(s, e).Some?
    ensures Consume(s, e).value.interruptions == s.interruptions + Recalled(e, s.pair, s.interruptions)
  {
    StagesOfConsume(s, e);
    var a := Admit(TrackTask(Identify(s, e).value, e).value, e).value;
    StagesOfAttribute(a, e);
    var n, g := See(Bind(Mark(a, e).value, e), e).value, Attribute(a, e).value;
    SettleRemembers(n, e);
    ReconcileShape(g);
    ProjectShape(Reconcile(g), e);
    if Ends(e) {
      BindLeavesEnds(Mark(a, e).value, e);
    }
    hide Consume, ValidPair, Identify, TrackTask, Admit, Attribute, Mark, Bind, See, Settle, Reconcile, Project, Recalls;
  }

  lemma {:induction false} InterruptionsAreRead(inputs: seq<Input>)
    requires After(inputs).Some? && After(inputs).value.rows != []
    ensures After(inputs).value.interruptions == Remembered(inputs)
  {
    hide Consume, Recalled;
    var front, last := inputs[..|inputs| - 1], inputs[|inputs| - 1];
    if last.Receive? {
      RowsBefore(After(front).value, last.event);
      InterruptionsAreRead(front);
      ConsumeRemembers(After(front).value, last.event);
    }
  }

  // ---------- binding ----------

  /** An event that binds: a first token of an unknown pair, once the user was heard and the input admitted. */
  predicate Binds(s: State, userSeen: bool, admitted: bool, e: Event) {
    s.pair.None? && e.kind == FirstToken && userSeen && admitted && ValidPair(e).Some? && ValidPair(e).value !in s.seen
  }

  /** The interruption of a pair that was not known when the turn began, of exactly the turn's admitted input. */
  predicate OfOwnInput(s: State, i: Interruption) {
    && s.admittedInput.Some? && i.correlation == s.admittedInput && i.pair !in s.priorSeen
  }

  /** The place of a remembered interruption of the own input, with which the pair `bound` does not disagree. */
  predicate Fits(s: State, bound: Option<Pair>, k: nat)
    requires k < |s.interruptions|
  {
    OfOwnInput(s, s.interruptions[k]) && (bound.None? || bound == Some(s.interruptions[k].pair))
  }

  lemma AttributeBinds(s: State, e: Event)
    requires s.rows != [] && Attribute(s, e).Some?
    ensures var g := Attribute(s, e).value;
            && g.rows != [] && g.pair == (if Binds(s, s.userSeen, s.admitted, e) then ValidPair(e) else s.pair)
            && g.admittedInput == s.admittedInput && g.priorSeen == s.priorSeen && g.userSeen == s.userSeen && g.admitted == s.admitted
            && g.interruptions == s.interruptions + Recalled(e, s.pair, s.interruptions)
  {
    StagesOfAttribute(s, e);
    var m := Mark(s, e).value;
    var n := See(Bind(m, e), e).value;
    SettleRemembers(n, e);
    BindReads(m, e);
    hide Attribute, ValidPair, Mark, Bind, See, Settle, Recalled;
    if Ends(e) {
      BindLeavesEnds(m, e);
    } else {
      OnlyEndsAreRecalled(e, n.pair, s.interruptions);
      OnlyEndsAreRecalled(e, s.pair, s.interruptions);
    }
  }

  lemma BindReads(s: State, e: Event)
    ensures Bind(s, e).pair == (if Binds(s, s.userSeen, s.admitted, e) then ValidPair(e) else s.pair)
  {
    hide ValidPair;
  }

  lemma OnlyEndsAreRecalled(e: Event, bound: Option<Pair>, before: seq<Interruption>)
    requires !Ends(e)
    ensures Recalled(e, bound, before) == []
  {
  }

  ghost predicate SomeFits(s: State, bound: Option<Pair>) {
    exists k :: 0 <= k < |s.interruptions| && Fits(s, bound, k)
  }

  lemma CandidateFits(s: State)
    ensures FirstCandidate(s, 0).Some? <==> SomeFits(s, s.pair)
    ensures FirstCandidate(s, 0).Some? ==> Fits(s, s.pair, FirstCandidate(s, 0).value)
    ensures FirstCandidate(s, 0).Some? ==> forall j :: 0 <= j < FirstCandidate(s, 0).value ==> !Fits(s, s.pair, j)
  {
    FirstIsFirst(s, 0);
    assert forall k :: 0 <= k < |s.interruptions| ==> (Fits(s, s.pair, k) <==> Candidate(s, s.interruptions[k]));
  }

  lemma {:induction false} FirstIsFirst(s: State, from: nat)
    requires from <= |s.interruptions|
    ensures FirstCandidate(s, from).Some? ==>
              forall j :: from <= j < FirstCandidate(s, from).value ==> !Candidate(s, s.interruptions[j])
    decreases |s.interruptions| - from
  {
    if from < |s.interruptions| {
      FirstIsFirst(s, from + 1);
    }
  }

  lemma ReconcileReads(s: State)
    requires s.rows != []
    ensures var r := Reconcile(s);
            && Current(r).outcome == (if Current(s).outcome == Pending && SomeFits(s, s.pair) then Interrupted else Current(s).outcome)
            && (Current(s).outcome == Pending && SomeFits(s, s.pair) ==> FirstFit(s, s.pair, r.pair))
            && (!(Current(s).outcome == Pending && SomeFits(s, s.pair)) ==> r.pair == s.pair)
  {
    CandidateFits(s);
    hide FirstCandidate, Fits, SomeFits;
  }

  /** The pair of the first interruption that fits. */
  ghost predicate FirstFit(s: State, bound: Option<Pair>, p: Option<Pair>) {
    exists k :: 0 <= k < |s.interruptions| && Fits(s, bound, k) && p == Some(s.interruptions[k].pair)
                && forall j :: 0 <= j < k ==> !Fits(s, bound, j)
  }

  /** What fits depends on the interruptions, the admitted input and the earlier pairs alone. */
  lemma FitsAlike(s: State, t: State, bound: Option<Pair>)
    requires t.interruptions == s.interruptions && t.admittedInput == s.admittedInput && t.priorSeen == s.priorSeen
    ensures SomeFits(t, bound) <==> SomeFits(s, bound)
    ensures forall p :: FirstFit(t, bound, p) <==> FirstFit(s, bound, p)
  {
    assert forall k :: 0 <= k < |s.interruptions| ==> (Fits(t, bound, k) <==> Fits(s, bound, k));
    hide Fits;
    FitsOver(s, t, bound);
    FitsOver(t, s, bound);
  }

  lemma FitsOver(s: State, t: State, bound: Option<Pair>)
    requires t.interruptions == s.interruptions
    requires forall k :: 0 <= k < |s.interruptions| ==> (Fits(t, bound, k) <==> Fits(s, bound, k))
    ensures SomeFits(s, bound) ==> SomeFits(t, bound)
    ensures forall p :: FirstFit(s, bound, p) ==> FirstFit(t, bound, p)
  {
    hide Fits;
    if SomeFits(s, bound) {
      var k :| 0 <= k < |s.interruptions| && Fits(s, bound, k);
      assert Fits(t, bound, k);
    }
    forall p | FirstFit(s, bound, p) ensures FirstFit(t, bound, p) {
      var k :| 0 <= k < |s.interruptions| && Fits(s, bound, k) && p == Some(s.interruptions[k].pair)
               && forall j :: 0 <= j < k ==> !Fits(s, bound, j);
      assert Fits(t, bound, k);
    }
  }

  lemma NothingFits(s: State, g: State)
    requires Inv(s) && s.rows != [] && Current(s).outcome == Pending
    requires g.interruptions == s.interruptions && g.admittedInput == s.admittedInput && g.priorSeen == s.priorSeen
    ensures !SomeFits(g, s.pair)
    ensures s.pair.None? ==> forall p :: !SomeFits(g, p)
  {
    CandidateFits(s);
    QuietBefore(s);
    hide Inv, FirstCandidate;
    assert forall k :: 0 <= k < |s.interruptions| ==> (Fits(g, s.pair, k) <==> Fits(s, s.pair, k));
    assert s.pair.None? ==> forall p, k :: 0 <= k < |s.interruptions| && Fits(g, p, k) ==> Fits(s, s.pair, k);
  }

  /** What the pair is after one event, and when the event reconciles. */
  lemma ConsumeBinds(s: State, e: Event)
    requires Inv(s) && s.rows != [] && Consume(s, e).Some?
    ensures var t := Consume(s, e).value;
            && t.rows != []
            && (Reconciles(s, e) <==> Current(s).outcome == Pending && SomeFits(t, s.pair))
            && (!Reconciles(s, e) ==> t.pair == if Binds(s, t.userSeen, t.admitted, e) then ValidPair(e) else s.pair)
            && (Reconciles(s, e) ==> FirstFit(t, s.pair, t.pair))
  {
    StagesOfConsume(s, e);
    var a := Admit(TrackTask(Identify(s, e).value, e).value, e).value;
    AttributeBinds(a, e);
    StagesOfAttribute(a, e);
    SettleDecides(See(Bind(Mark(a, e).value, e), e).value, e);
    if Ends(e) {
      BindLeavesEnds(Mark(a, e).value, e);
    }
    var g, t := Attribute(a, e).value, Consume(s, e).value;
    ReconcileReads(g);
    ReconcileShape(g);
    ProjectedRow(Reconcile(g), e);
    FitsAlike(g, t, s.pair);
    AdmittedLater(s, a, e);
    Reads(s, e);
    hide Inv, Consume, ValidPair, Identify, TrackTask, Admit, Attribute, Mark, Bind, See, Settle, Reconcile, Project;
    hide SomeFits, FirstFit, Recalled;
    if Current(s).outcome == Pending {
      if Ends(e) && ValidPair(e).Some? && ValidPair(e) == s.pair {
        BoundIsNotRecalled(e, s.interruptions);
        NothingFits(s, g);
      } else if Binds(s, a.userSeen, a.admitted, e) {
        OnlyEndsAreRecalled(e, s.pair, s.interruptions);
        NothingFits(s, g);
      }
    }
  }

  lemma BoundIsNotRecalled(e: Event, before: seq<Interruption>)
    ensures Recalled(e, ValidPair(e), before) == []
  {
  }

  lemma AdmittedLater(s: State, a: State, e: Event)
    requires s.rows != [] && Consume(s, e).Some? && Some(a) == Admit(TrackTask(Identify(s, e).value, e).value, e)
    ensures e.kind != InputAdmitted ==> a.admittedInput == s.admittedInput
  {
    StagesOfConsume(s, e);
    AdmitReads(TrackTask(Identify(s, e).value, e).value, e);
  }

  /** Reconciling, in terms of the outcomes before and after. */
  lemma Reads(s: State, e: Event)
    requires s.rows != [] && Consume(s, e).Some? && Consume(s, e).value.rows != []
    ensures Reconciles(s, e) <==> && Current(s).outcome == Pending && Current(Consume(s, e).value).outcome != Pending
                                  && !(Ends(e) && ValidPair(e).Some? && ValidPair(e) == s.pair)
  {
    hide Consume, ValidPair;
  }

  // ---------- the same, over a run ----------

  /** The input that the run admitted for its turn. */
  function OwnInput(inputs: seq<Input>): Option<Correlation> {
    var admission := FirstAdmitted(Since(inputs));
    if admission.Some? then InputCorrelation(admission.value) else None
  }

  /** A first token that binds its pair: the user was heard, the input admitted, the pair unknown and none bound. */
  ghost predicate BindsIn(inputs: seq<Input>)
    requires inputs != [] && inputs[|inputs| - 1].Receive?
  {
    var front, e := inputs[..|inputs| - 1], inputs[|inputs| - 1].event;
    && BoundAfter(front).None? && e.kind == FirstToken && ValidPair(e).Some? && !KnownIn(front, ValidPair(e).value)
    && SomeSpeaks(Since(inputs)) && FirstAdmitted(Since(inputs)).Some?
  }

  /** A remembered interruption of the own input whose pair was unknown when the turn began, and no other pair is bound. */
  predicate FitsIn(inputs: seq<Input>, bound: Option<Pair>, k: nat)
    requires k < |Remembered(inputs)|
  {
    var i := Remembered(inputs)[k];
    OwnInput(inputs).Some? && i.correlation == OwnInput(inputs) && !KnownIn(Earlier(inputs), i.pair) && (bound.None? || bound == Some(i.pair))
  }

  ghost predicate SomeFitsIn(inputs: seq<Input>, bound: Option<Pair>) {
    exists k :: 0 <= k < |Remembered(inputs)| && FitsIn(inputs, bound, k)
  }

  ghost predicate FirstFitIn(inputs: seq<Input>, bound: Option<Pair>, p: Option<Pair>) {
    exists k :: 0 <= k < |Remembered(inputs)| && FitsIn(inputs, bound, k) && p == Some(Remembered(inputs)[k].pair)
                && forall j :: 0 <= j < k ==> !FitsIn(inputs, bound, j)
  }

  lemma FitsRead(inputs: seq<Input>, bound: Option<Pair>)
    requires After(inputs).Some? && After(inputs).value.rows != []
    ensures SomeFits(After(inputs).value, bound) <==> SomeFitsIn(inputs, bound)
    ensures forall p :: FirstFit(After(inputs).value, bound, p) <==> FirstFitIn(inputs, bound, p)
  {
    hide After, Remembered, KnownIn, Earlier, InputCorrelation, Since;
    var s := After(inputs).value;
    InterruptionsAreRead(inputs);
    AdmissionIsRead(inputs);
    forall p ensures p in s.priorSeen <==> KnownIn(Earlier(inputs), p) {
      PriorIsKnownEarlier(inputs, p);
    }
    FitsReadOff(s, inputs, bound);
  }

  lemma FitsReadOff(s: State, inputs: seq<Input>, bound: Option<Pair>)
    requires s.interruptions == Remembered(inputs) && s.admittedInput == OwnInput(inputs)
    requires forall p :: p in s.priorSeen <==> KnownIn(Earlier(inputs), p)
    ensures SomeFits(s, bound) <==> SomeFitsIn(inputs, bound)
    ensures forall p :: FirstFit(s, bound, p) <==> FirstFitIn(inputs, bound, p)
  {
    hide Remembered, KnownIn, Earlier, OwnInput;
    assert forall k :: 0 <= k < |s.interruptions| ==> (Fits(s, bound, k) <==> FitsIn(inputs, bound, k));
  }

  /**
   Over any run, one more event binds the turn exactly if it is a first token that binds, and reconciles it
   exactly if the turn is pending and a remembered interruption fits; the first that fits then gives the pair.
   */
  lemma BindingIsRead(inputs: seq<Input>)
    requires inputs != [] && inputs[|inputs| - 1].Receive? && After(inputs).Some? && After(inputs).value.rows != []
    ensures var front := inputs[..|inputs| - 1];
            var pending := DecidedBy(front).None? && !ReconciledIn(front);
            && After(front).Some?
            && (ReconciledIn(inputs) && !ReconciledIn(front) <==> pending && SomeFitsIn(inputs, BoundAfter(front)))
            && (if pending && SomeFitsIn(inputs, BoundAfter(front)) then FirstFitIn(inputs, BoundAfter(front), BoundAfter(inputs))
                else if BindsIn(inputs) then BoundAfter(inputs) == ValidPair(inputs[|inputs| - 1].event)
                else BoundAfter(inputs) == BoundAfter(front))
  {
    var front, e := inputs[..|inputs| - 1], inputs[|inputs| - 1].event;
    var s := After(front).value;
    RowsBefore(s, e);
    Reachable(front);
    OutcomeIsDecided(front);
    ConsumeBinds(s, e);
    SettledStays(s, e);
    FitsRead(inputs, s.pair);
    AdmissionIsRead(inputs);
    if ValidPair(e).Some? {
      SeenIsKnown(front, ValidPair(e).value);
    }
    hide Inv, Consume, ValidPair, KnownIn, SomeFits, FirstFit, SomeFitsIn, FirstFitIn, Reconciles, InputCorrelation, DecidedBy, FirstAdmitted, SomeSpeaks, Since;
  }

  /** While a turn is pending, nothing that it remembers fits. */
  lemma PendingFitsNothing(inputs: seq<Input>)
    requires After(inputs).Some? && After(inputs).value.rows != [] && DecidedBy(inputs).None? && !ReconciledIn(inputs)
    ensures !SomeFitsIn(inputs, BoundAfter(inputs))
  {
    Reachable(inputs);
    OutcomeIsDecided(inputs);
    QuietBefore(After(inputs).value);
    CandidateFits(After(inputs).value);
    FitsRead(inputs, After(inputs).value.pair);
    hide *;
  }

  // ---------- the columns ----------

  /** The events of the current turn that were the bound pair's once they had been taken. */
  function Own(inputs: seq<Input>): seq<Event> {
    if inputs == [] || inputs[|inputs| - 1].BeginTurn? then []
    else
      var front, e := inputs[..|inputs| - 1], inputs[|inputs| - 1].event;
      if ValidPair(e).Some? && BoundAfter(inputs) == ValidPair(e) then Own(front) + [e] else Own(front)
  }

  function Texts(events: seq<Event>): nat {
    if events == [] then 0
    else Texts(events[..|events| - 1]) + if events[|events| - 1].kind == TextGenerated then 1 else 0
  }

  function Spoken(events: seq<Event>): nat {
    if events == [] then 0
    else Spoken(events[..|events| - 1])
         + if events[|events| - 1].kind == TranscriptFinal && events[|events| - 1].role == Assistant then 1 else 0
  }

  /** How long after `from` a clock was, unless it was before. */
  function Elapsed(from: real, clock: Option<real>): Option<real> {
    if clock.Some? && clock.value >= from then Some(clock.value - from) else None
  }

  predicate Columns(r: Row, started: real, token: Option<real>, playable: Option<real>) {
    && r.firstToken == Elapsed(started, token)
    && r.firstPlayable == Elapsed(started, playable)
    && r.tokenToPlayable == (if token.Some? then Elapsed(token.value, playable) else None)
  }

  /** The row counts and times the bound pair's own events, if there were any. */
  predicate Counted(s: State, own: seq<Event>)
    requires s.rows != []
  {
    && Current(s).assistantSegments == Texts(own) && Current(s).deliveredSegments == Spoken(own)
    && if own == [] then Untimed(Current(s))
       else s.pair.Some? && var m := MarksAt(s, s.pair.value); Columns(Current(s), s.started, m.token, m.playable)
  }

  lemma SettleKeepsColumns(s: State, e: Event)
    requires s.rows != [] && Settle(s, e).Some?
    ensures var r, q := Current(s), Current(Settle(s, e).value);
            q == r.(outcome := q.outcome, unbound := q.unbound)
  {
    hide ValidPair, InputCorrelation, Holds;
  }

  /** Up to its last step an event leaves the counts and the times alone. */
  lemma BeforeProjecting(s: State, e: Event) returns (r: State)
    requires s.rows != [] && Consume(s, e).Some?
    ensures r.rows != [] && Consume(s, e).value == Project(r, e)
    ensures Current(r) == Current(s).(outcome := Current(r).outcome, unbound := Current(r).unbound)
    ensures Mark(s, e).Some? && r.markers == Mark(s, e).value.markers && r.started == s.started
  {
    hide Consume, ValidPair, Identify, TrackTask, Admit, Attribute, Mark, Bind, See, Settle, Reconcile, Project;
    StagesOfConsume(s, e);
    var a := Admit(TrackTask(Identify(s, e).value, e).value, e).value;
    StagesOfAttribute(a, e);
    MarkLooksAtMarks(s, a, e);
    SettleKeepsColumns(See(Bind(Mark(a, e).value, e), e).value, e);
    ReconcileShape(Attribute(a, e).value);
    r := Reconcile(Attribute(a, e).value);
  }

  /** The last step, for an event that is not the bound pair's and for one that is. */
  lemma ProjectReads(s: State, e: Event)
    requires s.rows != []
    ensures var t, own := Project(s, e), ValidPair(e).Some? && ValidPair(e) == s.pair;
            && t.rows != [] && t.pair == s.pair && t.markers == s.markers && t.started == s.started
            && (!own ==> Current(t) == Current(s))
            && Current(t).assistantSegments == Current(s).assistantSegments + (if own && e.kind == TextGenerated then 1 else 0)
            && Current(t).deliveredSegments
               == Current(s).deliveredSegments + (if own && e.kind == TranscriptFinal && e.role == Assistant then 1 else 0)
  {
    hide ValidPair;
  }

  /** Times that come from the marks so far become those of the marks by now. */
  lemma ProjectTimes(s: State, e: Event, before: Marks)
    requires s.rows != [] && ValidPair(e).Some? && ValidPair(e) == s.pair
    requires Columns(Current(s), s.started, before.token, before.playable)
    requires before.token.None? || MarksAt(s, s.pair.value).token == before.token
    requires before.playable.None? || MarksAt(s, s.pair.value).playable == before.playable
    ensures var t, m := Project(s, e), MarksAt(s, s.pair.value);
            t.rows != [] && Columns(Current(t), s.started, m.token, m.playable)
  {
    hide ValidPair, MarksAt;
  }

  lemma MarksOfOthers(s: State, e: Event, p: Pair)
    requires Mark(s, e).Some? && ValidPair(e) != Some(p)
    ensures MarksAt(Mark(s, e).value, p) == MarksAt(s, p)
  {
    hide ValidPair;
  }

  lemma CountsOneMore(s: State, e: Event, own: seq<Event>)
    requires s.rows != [] && Consume(s, e).Some? && Counted(s, own)
    requires s.pair.None? ==> own == []
    requires s.pair.Some? ==> Consume(s, e).value.pair == s.pair
    ensures var t := Consume(s, e).value;
            t.rows != [] && Counted(t, if ValidPair(e).Some? && t.pair == ValidPair(e) then own + [e] else own)
  {
    hide Consume, ValidPair, Mark, Project, Texts, Spoken, MarksAt, Columns;
    var r := BeforeProjecting(s, e);
    var t := Consume(s, e).value;
    ProjectReads(r, e);
    ProjectedRow(r, e);
    OwnOneMore(own, e);
    var marks := if own == [] then Marks(None, None) else MarksAt(s, s.pair.value);
    UntimedColumns(Current(s), s.started);
    SameColumns(Current(s), Current(r), s.started, marks);
    if t.pair.Some? {
      MarkIsFirst(s, e, t.pair.value);
      MarksAlike(r, Mark(s, e).value, t, t.pair.value);
      if ValidPair(e) == t.pair {
        ProjectTimes(r, e, marks);
      } else {
        MarksOfOthers(s, e, t.pair.value);
      }
    }
  }

  lemma OwnOneMore(own: seq<Event>, e: Event)
    ensures Texts(own + [e]) == Texts(own) + (if e.kind == TextGenerated then 1 else 0)
    ensures Spoken(own + [e]) == Spoken(own) + (if e.kind == TranscriptFinal && e.role == Assistant then 1 else 0)
  {
    assert (own + [e])[..|own|] == own;
  }

  lemma UntimedColumns(r: Row, started: real)
    ensures Untimed(r) <==> Columns(r, started, None, None)
  {
  }

  lemma SameColumns(r: Row, q: Row, started: real, m: Marks)
    requires q == r.(outcome := q.outcome, unbound := q.unbound)
    ensures Columns(r, started, m.token, m.playable) <==> Columns(q, started, m.token, m.playable)
  {
  }

  lemma MarksAlike(s: State, t: State, u: State, p: Pair)
    requires s.markers == t.markers == u.markers
    ensures MarksAt(s, p) == MarksAt(t, p) == MarksAt(u, p)
  {
  }

  lemma {:induction false} UnboundOwnsNothing(inputs: seq<Input>)
    requires After(inputs).Some? && After(inputs).value.pair.None?
    ensures Own(inputs) == []
  {
    hide Consume, ValidPair, Inv;
    if inputs != [] && inputs[|inputs| - 1].Receive? {
      var front, e := inputs[..|inputs| - 1], inputs[|inputs| - 1].event;
      Reachable(front);
      ConsumeKeeps(After(front).value, e);
      UnboundOwnsNothing(front);
    }
  }

  /**
   Over any run, the row's two counts and its three times are those of the bound pair's own events and of the
   first clocks that named the pair.
   */
  lemma {:induction false} ColumnsAreRead(inputs: seq<Input>)
    requires After(inputs).Some? && After(inputs).value.rows != []
    ensures var r, own, s := Current(After(inputs).value), Own(inputs), After(inputs).value;
            && r.assistantSegments == Texts(own) && r.deliveredSegments == Spoken(own)
            && (own == [] ==> Untimed(r))
            && (own != [] ==>
                  BoundAfter(inputs).Some? && var p := BoundAfter(inputs).value;
                  Columns(r, s.started, FirstClock(inputs, FirstToken, p), FirstClock(inputs, FirstPlayable, p)))
  {
    hide Columns, Texts, Spoken, Untimed;
    CountedRow(inputs);
    if BoundAfter(inputs).Some? {
      MarksAreFirst(inputs, BoundAfter(inputs).value);
    }
    hide After, Own;
  }

  lemma {:induction false} CountedRow(inputs: seq<Input>)
    requires After(inputs).Some? && After(inputs).value.rows != []
    ensures Counted(After(inputs).value, Own(inputs))
  {
    hide Consume, ValidPair, Inv, Counted;
    var front, last := inputs[..|inputs| - 1], inputs[|inputs| - 1];
    if last.Receive? {
      RowsBefore(After(front).value, last.event);
      CountedRow(front);
      Reachable(front);
      ConsumeKeeps(After(front).value, last.event);
      if After(front).value.pair.None? {
        UnboundOwnsNothing(front);
      }
      CountsOneMore(After(front).value, last.event, Own(front));
    } else {
      NothingCounted(After(inputs).value);
    }
  }

  lemma NothingCounted(s: State)
    requires s.rows != [] && Untimed(Current(s)) && Current(s).assistantSegments == Current(s).deliveredSegments == 0
    ensures Counted(s, [])
  {
  }

  /** The rows of the earlier turns stay as they were when the current turn began. */
  lemma {:induction false} EarlierRowsStand(inputs: seq<Input>)
    requires After(inputs).Some? && After(inputs).value.rows != []
    ensures var s, earlier := After(inputs).value, After(Earlier(inputs));
            earlier.Some? && s.rows == earlier.value.rows + [Current(s)]
  {
    hide Consume, Inv;
    var front, last := inputs[..|inputs| - 1], inputs[|inputs| - 1];
    if last.Receive? {
      RowsBefore(After(front).value, last.event);
      EarlierRowsStand(front);
      Reachable(front);
      ConsumeKeeps(After(front).value, last.event);
    }
  }

  /** The last status that was reported of a task. */
  function LatestStatus(inputs: seq<Input>, id: string): Option<string> {
    if inputs == [] then None
    else
      var last := inputs[|inputs| - 1];
      if last.Receive? && Reports(last.event) && last.event.task.Some? && last.event.task.value.0 == id
      then Some(last.event.task.value.1) else LatestStatus(inputs[..|inputs| - 1], id)
  }

  predicate Reports(e: Event) {
    e.kind == TaskState || e.kind == TaskResult
  }

  /** A task stands as it was last reported, in a turn or between turns. */
  lemma {:induction false} TasksAreLatest(inputs: seq<Input>, id: string)
    requires After(inputs).Some?
    ensures var s := After(inputs).value;
            LatestStatus(inputs, id) == if id in s.tasks then Some(s.tasks[id]) else None
  {
    hide Consume;
    if inputs != [] {
      TasksAreLatest(inputs[..|inputs| - 1], id);
      if inputs[|inputs| - 1].Receive? {
        ConsumeReports(After(inputs[..|inputs| - 1]).value, inputs[|inputs| - 1].event);
      }
    }
  }

  lemma ConsumeReports(s: State, e: Event)
    requires Consume(s, e).Some?
    ensures Reports(e) ==> e.task.Some?
    ensures Consume(s, e).value.tasks == if Reports(e) then s.tasks[e.task.value.0 := e.task.value.1] else s.tasks
  {
    if s.rows != [] {
      hide Consume, ValidPair, Identify, Admit, Attribute, Mark, Bind, See, Settle, Reconcile, Project;
      StagesOfConsume(s, e);
      var a := Admit(TrackTask(Identify(s, e).value, e).value, e).value;
      StagesOfAttribute(a, e);
      ReconcileShape(Attribute(a, e).value);
      ProjectShape(Reconcile(Attribute(a, e).value), e);
      TaskReads(Identify(s, e).value, e);
    } else {
      hide ValidPair;
    }
  }

  lemma TaskReads(s: State, e: Event)
    requires TrackTask(s, e).Some?
    ensures Reports(e) ==> e.task.Some?
    ensures TrackTask(s, e).value.tasks == if Reports(e) then s.tasks[e.task.value.0 := e.task.value.1] else s.tasks
  {
  }

  // ---------- what is refused ----------

  predicate Malformed(s: State, e: Event) {
    e.sequence != s.cursor + 1 || e.clock < 0.0 || e.size > 32768
  }

  predicate UnknownTask(s: State, e: Event) {
    Reports(e) && (e.task.None? || (e.task.value.0 !in s.tasks && |s.tasks| >= 12))
  }

  predicate ForeignInput(s: State, e: Event)
    requires s.rows != []
  {
    || (Speaks(e) && e.text != Some(s.text))
    || (e.kind == InputAdmitted && e.inputSequence != Some(Current(s).inputSequence))
  }

  /** One more pair than 128 would be marked or known. */
  predicate TooManyPairs(s: State, e: Event) {
    && ValidPair(e).Some? && var p := ValidPair(e).value;
       || ((e.kind == FirstToken || e.kind == FirstPlayable) && p !in s.markers && |s.markers| >= 128)
       || (Shows(e, p) && |s.seen + {p}| > 128)
  }

  /** One more unmatched end than 128 would be counted or remembered. */
  predicate TooManyEnds(s: State, e: Event)
    requires s.rows != []
  {
    && Ends(e) && (ValidPair(e).None? || ValidPair(e) != s.pair)
    && (Current(s).unbound >= 128 || (Recalled(e, s.pair, s.interruptions) != [] && |s.interruptions| >= 128))
  }

  /** An event is refused exactly for one of these reasons. */
  lemma RefusedExactly(s: State, e: Event)
    ensures Consume(s, e).None? <==>
              || Malformed(s, e) || UnknownTask(s, e)
              || (s.rows != [] && (ForeignInput(s, e) || TooManyPairs(s, e) || TooManyEnds(s, e)))
  {
    hide ValidPair, Admit, Attribute, Reconcile, Project, ForeignInput, TooManyPairs, TooManyEnds;
    if !Malformed(s, e) && !UnknownTask(s, e) && s.rows != [] {
      TrackedSame(s, e);
      var u := TrackTask(Identify(s, e).value, e).value;
      AdmitRefuses(s, u, e);
      if Admit(u, e).Some? {
        AdmittedRows(u, e);
        AttributeRefuses(s, Admit(u, e).value, e);
      }
    }
  }

  lemma AdmitRefuses(s: State, u: State, e: Event)
    requires s.rows != [] && u.rows == s.rows && u.text == s.text
    ensures Admit(u, e).None? <==> ForeignInput(s, e)
  {
    hide InputCorrelation;
  }

  lemma AttributeRefuses(s: State, a: State, e: Event)
    requires s.rows != [] && a.rows == s.rows && a.markers == s.markers && a.seen == s.seen && a.pair == s.pair
    requires a.interruptions == s.interruptions
    ensures Attribute(a, e).None? <==> TooManyPairs(s, e) || TooManyEnds(s, e)
  {
    hide ValidPair, Settle, Recalled, Shows;
    MarkRefuses(s, a, e);
    if Mark(a, e).Some? {
      var b := Bind(Mark(a, e).value, e);
      SeeRefuses(s, b, e);
      if See(b, e).Some? {
        var n := See(b, e).value;
        if Ends(e) {
          BindLeavesEnds(Mark(a, e).value, e);
          SettleRefuses(s, n, e);
        } else {
          assert Settle(n, e).Some? by { OthersSettle(n, e); }
        }
      }
    }
  }

  predicate MarksTooMany(s: State, e: Event) {
    && ValidPair(e).Some? && (e.kind == FirstToken || e.kind == FirstPlayable)
    && ValidPair(e).value !in s.markers && |s.markers| >= 128
  }

  lemma MarkRefuses(s: State, a: State, e: Event)
    requires a.markers == s.markers
    ensures Mark(a, e).None? <==> MarksTooMany(s, e)
    ensures MarksTooMany(s, e) ==> TooManyPairs(s, e)
  {
    hide ValidPair;
  }

  lemma SeeRefuses(s: State, b: State, e: Event)
    requires b.seen == s.seen
    ensures See(b, e).None? ==> TooManyPairs(s, e)
    ensures See(b, e).Some? && !MarksTooMany(s, e) ==> !TooManyPairs(s, e)
  {
    hide ValidPair;
  }

  lemma OthersSettle(s: State, e: Event)
    requires s.rows != [] && !Ends(e)
    ensures Settle(s, e).Some?
  {
  }

  lemma SettleRefuses(s: State, n: State, e: Event)
    requires s.rows != [] && n.rows == s.rows && n.pair == s.pair && n.interruptions == s.interruptions && Ends(e)
    ensures Settle(n, e).None? <==> TooManyEnds(s, e)
  {
    hide ValidPair, InputCorrelation, Holds, Recalls;
    if ValidPair(e).Some? {
      HoldsIsRecalls(s.interruptions, ValidPair(e).value);
    }
  }

  function Turns(inputs: seq<Input>): nat {
    if inputs == [] then 0 else Turns(inputs[..|inputs| - 1]) + if inputs[|inputs| - 1].BeginTurn? then 1 else 0
  }

  /** There is one row a turn, and exactly the thirteenth turn is refused. */
  lemma {:induction false} TwelveTurns(inputs: seq<Input>, name: string, sequence: int, text: string, now: real)
    requires After(inputs).Some?
    ensures |After(inputs).value.rows| == Turns(inputs) <= 12
    ensures After(inputs + [BeginTurn(name, sequence, text, now)]).None? <==> Turns(inputs) == 12
  {
    hide Consume;
    var more := inputs + [BeginTurn(name, sequence, text, now)];
    assert more[..|inputs|] == inputs;
    if inputs != [] {
      TwelveTurns(inputs[..|inputs| - 1], name, sequence, text, now);
      if inputs[|inputs| - 1].Receive? {
        StaysBegun(After(inputs[..|inputs| - 1]).value, inputs[|inputs| - 1].event);
      }
    }
  }
}
