/**
 The stop-and-wait exchange between the equivalence parent and its archived child, over two byte pipes.
 Either side may fail at any point; writes may be partial and reads take one byte at a time.
 */
module Exchange {
  import opened Bytes

  const LF: byte := 10

  const MAX_FRAME := 262144

  datatype Observation = Port(port: int) | Arm(arm: string, facts: bytes) | Empty

  datatype Frame =
    | Config(nonce: bytes, details: bytes)
    | Report(nonce: bytes, sequence: nat, stage: string, observation: Observation)
    | Failed(nonce: bytes, sequence: nat)
    | Ack(nonce: bytes, sequence: nat)

  /** Canonical JSON with a final line feed, and its strict reader. */
  datatype Codec = Codec(encode: Frame -> bytes, decode: bytes -> Option<Frame>)

  predicate HasLf(s: bytes) {
    exists i :: 0 <= i < |s| && s[i] == LF
  }

  /** One line: its only line feed is its last byte. */
  predicate IsLine(s: bytes) {
    s != [] && s[|s| - 1] == LF && !HasLf(s[..|s| - 1])
  }

  /** Every frame is one line and reads back. */
  ghost predicate Framed(c: Codec) {
    forall f :: IsLine(c.encode(f)) && c.decode(c.encode(f)) == Some(f)
  }

  datatype Setup = Setup(codec: Codec, nonce: bytes, details: bytes, arms: seq<string>)

  function Stages(u: Setup): (r: seq<string>)
    ensures |r| == |u.arms| + 2
  {
    ["ready"] + u.arms + ["done"]
  }

  /** No arm is named like a lifecycle stage, or like the stage by which the child tells its failure. */
  predicate WellNamed(u: Setup) {
    "ready" !in u.arms && "done" !in u.arms && "failed" !in u.arms
  }

  datatype ParentPhase = Configuring | Reading | Acking | Completed | Broken

  /** `Marking`: the last acknowledgment is read and the exit is being marked. */
  datatype ChildPhase = AwaitingConfig | Working | Reporting | AwaitingAck | Marking | Finished | Explaining | Dead

  /**
   `taken` counts the reports the parent accepted, `heard` the acknowledgments the child accepted and
   `emitted` holds the observations the child began to report. The `rest` of a side is what it still has to
   write of its current frame, its `buf` what it has read of one. `configured` says that the child has its
   configuration, `explained` that it began its last frame.
   */
  datatype State = State(parent: ParentPhase, taken: nat, pbuf: bytes, prest: bytes, rows: seq<Observation>,
                         child: ChildPhase, heard: nat, cbuf: bytes, crest: bytes, emitted: seq<Observation>,
                         configured: bool, explained: bool, request: bytes, response: bytes)

  datatype Step = ParentWrite(count: nat) | ParentRead | ParentFail | ChildWrite(count: nat) | ChildRead
                | ChildEmit(observation: Observation) | ChildMark | ChildFail

  function Initial(u: Setup): State {
    State(Configuring, 0, [], u.codec.encode(Config(u.nonce, u.details)), [], AwaitingConfig, 0, [], [], [],
          false, false, [], [])
  }

  /** The report the child makes of stage `j`. */
  function ReportOf(u: Setup, j: nat, o: Observation): Frame
    requires j < |Stages(u)|
  {
    Report(u.nonce, j, Stages(u)[j], o)
  }

  /** What the parent demands of a stage's observation. */
  predicate ObservationOk(stage: string, o: Observation) {
    if stage == "ready" then o.Port? else if stage == "done" then o.Empty? else o.Arm? && o.arm == stage
  }

  // ---------- the steps ----------

  predicate Enabled(u: Setup, s: State, step: Step) {
    match step
    case ParentWrite(count) => (s.parent == Configuring || s.parent == Acking) && 0 < count <= |s.prest|
    case ParentRead => s.parent == Reading && s.taken < |Stages(u)| && s.response != []
    case ParentFail => s.parent != Completed && s.parent != Broken
    case ChildWrite(count) => (s.child == Reporting || s.child == Explaining) && 0 < count <= |s.crest|
    case ChildRead => (s.child == AwaitingConfig || s.child == AwaitingAck) && s.request != []
    case ChildEmit(_) => s.child == Working && |s.emitted| < |Stages(u)|
    case ChildMark => s.child == Marking
    case ChildFail => s.child != Finished && s.child != Dead
  }

  function Apply(u: Setup, s: State, step: Step): State
    requires Enabled(u, s, step)
  {
    match step
    case ParentWrite(count) => AfterParentWrite(u, s, count)
    case ParentRead => AfterParentRead(u, s)
    case ParentFail => s.(parent := Broken)
    case ChildWrite(count) => AfterChildWrite(u, s, count)
    case ChildRead => AfterChildRead(u, s)
    case ChildEmit(o) => AfterEmit(u, s, o)
    case ChildMark => s.(child := Finished)
    case ChildFail => AfterChildFail(u, s)
  }

  function AfterParentWrite(u: Setup, s: State, count: nat): State
    requires 0 < count <= |s.prest|
  {
    var rest := s.prest[count..];
    s.(request := s.request + s.prest[..count], prest := rest,
       parent := if rest != [] then s.parent else if s.taken < |Stages(u)| then Reading else Completed)
  }

  /** One byte is read; a line feed ends the frame, which is then checked and acknowledged. */
  function AfterParentRead(u: Setup, s: State): State
    requires s.response != [] && s.taken < |Stages(u)|
  {
    var buf := s.pbuf + [s.response[0]];
    var t := s.(pbuf := buf, response := s.response[1..]);
    if |buf| > MAX_FRAME then t.(parent := Broken)
    else if s.response[0] != LF then t
    else
      var frame := u.codec.decode(buf);
      if Accepts(u, s.taken, frame) then
        t.(pbuf := [], prest := u.codec.encode(Ack(u.nonce, s.taken)), parent := Acking, taken := s.taken + 1,
           rows := if Stages(u)[s.taken] in ["ready", "done"] then s.rows else s.rows + [frame.value.observation])
      else t.(parent := Broken)
  }

  /** The parent's checks on the frame of stage `k`. */
  predicate Accepts(u: Setup, k: nat, frame: Option<Frame>)
    requires k < |Stages(u)|
  {
    && frame.Some? && frame.value.Report?
    && frame.value.nonce == u.nonce && frame.value.sequence == k && frame.value.stage == Stages(u)[k]
    && ObservationOk(Stages(u)[k], frame.value.observation)
  }

  function AfterChildWrite(u: Setup, s: State, count: nat): State
    requires 0 < count <= |s.crest|
  {
    var rest := s.crest[count..];
    s.(response := s.response + s.crest[..count], crest := rest,
       child := if rest != [] then s.child else if s.child == Reporting then AwaitingAck else Dead)
  }

  function AfterChildRead(u: Setup, s: State): State
    requires s.request != []
  {
    var buf := s.cbuf + [s.request[0]];
    var t := s.(cbuf := buf, request := s.request[1..]);
    if |buf| > MAX_FRAME then AfterChildFail(u, t)
    else if s.request[0] != LF then t
    else
      var frame := u.codec.decode(buf);
      if s.child == AwaitingConfig && frame.Some? && frame.value.Config? then
        t.(cbuf := [], child := Working, configured := true)
      else if s.child == AwaitingAck && frame == Some(Ack(u.nonce, s.heard)) then
        t.(cbuf := [], heard := s.heard + 1, child := if s.heard + 1 < |Stages(u)| then Working else Marking)
      else AfterChildFail(u, t)
  }

  /** `emit`: a report over the bound raises before any byte is written. */
  function AfterEmit(u: Setup, s: State, o: Observation): State
    requires |s.emitted| < |Stages(u)|
  {
    var line := u.codec.encode(ReportOf(u, |s.emitted|, o));
    if |line| > MAX_FRAME then AfterChildFail(u, s)
    else s.(emitted := s.emitted + [o], crest := line, child := Reporting)
  }

  /** A child that fails says so in one last frame, if it is configured and its pipe still works. */
  function AfterChildFail(u: Setup, s: State): State {
    if s.child == Working || s.child == AwaitingAck || s.child == Marking then
      s.(child := Explaining, crest := u.codec.encode(Failed(u.nonce, s.heard)), explained := true)
    else s.(child := Dead)
  }

  /** The state after a schedule; None when a step was not enabled. */
  function After(u: Setup, steps: seq<Step>): Option<State> {
    if steps == [] then Some(Initial(u))
    else
      var before := After(u, steps[..|steps| - 1]);
      var last := steps[|steps| - 1];
      if before.Some? && Enabled(u, before.value, last) then Some(Apply(u, before.value, last)) else None
  }

  // ---------- what each side takes, whatever the bytes are ----------

  /** The observation that the stage in place `k` calls for. */
  predicate Suits(u: Setup, k: nat, o: Observation)
    requires k < |u.arms| + 2
  {
    if k == 0 then o.Port? else if k == |u.arms| + 1 then o.Empty? else o.Arm? && o.arm == u.arms[k - 1]
  }

  lemma StagesSuit(u: Setup, k: nat, o: Observation)
    requires WellNamed(u) && k < |Stages(u)|
    ensures ObservationOk(Stages(u)[k], o) <==> Suits(u, k, o)
  {
    if 0 < k <= |u.arms| {
      assert Stages(u)[k] == u.arms[k - 1] && u.arms[k - 1] in u.arms;
    }
  }

  /** The parent accepts exactly the reports that this child could make of the stage. */
  lemma AcceptsOnlyReports(u: Setup, k: nat, frame: Option<Frame>)
    requires WellNamed(u) && k < |Stages(u)|
    ensures Accepts(u, k, frame) <==> exists o :: Suits(u, k, o) && frame == Some(ReportOf(u, k, o))
  {
    hide Suits, ObservationOk, Stages;
    if frame.Some? && frame.value.Report? {
      StagesSuit(u, k, frame.value.observation);
    }
    if o :| Suits(u, k, o) && frame == Some(ReportOf(u, k, o)) {
      StagesSuit(u, k, o);
    }
  }

  /** The line that a byte completes, if it is within the bound. */
  predicate Completes(buf: bytes, b: byte) {
    |buf| < 262144 && b as char == '\n'
  }

  /**
   From any state, sound or not: the parent goes on exactly when a byte completes the report of the stage it
   waits for, and then acknowledges that one; any other complete or overlong line ends it.
   */
  lemma ParentGoesOn(u: Setup, s: State)
    requires WellNamed(u) && Enabled(u, s, ParentRead)
    ensures var t, b := Apply(u, s, ParentRead), s.response[0];
            var frame := u.codec.decode(s.pbuf + [b]);
            var report := Completes(s.pbuf, b) && exists o :: Suits(u, s.taken, o) && frame == Some(ReportOf(u, s.taken, o));
            && t.response == s.response[1..] && t.request == s.request && t.child == s.child
            && (report ==> t.parent == Acking && t.taken == s.taken + 1 && t.prest == u.codec.encode(Ack(u.nonce, s.taken)))
            && (report ==> t.rows == if 0 < s.taken <= |u.arms| then s.rows + [frame.value.observation] else s.rows)
            && (!report ==> t.taken == s.taken && t.rows == s.rows && t.prest == s.prest)
            && (!report ==> t.parent == if |s.pbuf| < 262144 && b as char != '\n' then Reading else Broken)
  {
    hide Suits, Accepts;
    AcceptsOnlyReports(u, s.taken, u.codec.decode(s.pbuf + [s.response[0]]));
    OnlyArmsAreRows(u, s.taken);
    if Accepts(u, s.taken, u.codec.decode(s.pbuf + [s.response[0]])) {
      OnlyReportsAccepted(u, s.taken, u.codec.decode(s.pbuf + [s.response[0]]));
    }
    hide Stages;
  }

  lemma OnlyArmsAreRows(u: Setup, k: nat)
    requires WellNamed(u) && k < |Stages(u)|
    ensures Stages(u)[k] in ["ready", "done"] <==> !(0 < k <= |u.arms|)
  {
    if 0 < k <= |u.arms| {
      assert Stages(u)[k] == u.arms[k - 1] && u.arms[k - 1] in u.arms;
    }
  }

  /**
   From any state: the child goes on exactly when a byte completes a configuration, or the acknowledgment of
   the report it sent last; any other complete or overlong line makes it fail.
   */
  lemma ChildGoesOn(u: Setup, s: State)
    requires Enabled(u, s, ChildRead)
    ensures var t, b := Apply(u, s, ChildRead), s.request[0];
            var frame := u.codec.decode(s.cbuf + [b]);
            var wanted := && Completes(s.cbuf, b) && frame.Some?
                          && if s.child == AwaitingConfig then frame.value.Config? else frame.value == Ack(u.nonce, s.heard);
            && t.request == s.request[1..] && t.response == s.response && t.parent == s.parent
            && (wanted ==> t.heard == (if s.child == AwaitingConfig then s.heard else s.heard + 1))
            && (wanted ==> t.child == if s.child == AwaitingConfig || s.heard + 1 < |u.arms| + 2 then Working else Marking)
            && (!wanted ==> t.heard == s.heard)
            && (!wanted ==> t.child == if |s.cbuf| < 262144 && b as char != '\n' then s.child
                                       else if s.child == AwaitingConfig then Dead else Explaining)
  {
  }

  /** From any state: what the child reports names the stage in its place, and fits the bound or is not begun. */
  lemma ChildReports(u: Setup, s: State, o: Observation)
    requires Enabled(u, s, ChildEmit(o))
    ensures var t, k := Apply(u, s, ChildEmit(o)), |s.emitted|;
            var stage := if k == 0 then "ready" else if k <= |u.arms| then u.arms[k - 1] else "done";
            var line := u.codec.encode(Report(u.nonce, k, stage, o));
            && (|line| <= 262144 ==> t == s.(emitted := s.emitted + [o], crest := line, child := Reporting))
            && (|line| > 262144 ==> t.child == Explaining && t.emitted == s.emitted)
  {
    hide AfterChildFail;
    FailsAloud(u, s);
    assert Stages(u)[|s.emitted|]
        == if |s.emitted| == 0 then "ready" else if |s.emitted| <= |u.arms| then u.arms[|s.emitted| - 1] else "done";
  }

  /** A failing child tells so exactly when it is configured and is not writing. */
  lemma FailsAloud(u: Setup, s: State)
    requires Enabled(u, s, ChildFail)
    ensures var t := AfterChildFail(u, s);
            && t.emitted == s.emitted && t.heard == s.heard && t.request == s.request && t.response == s.response
            && (if s.child in {Working, AwaitingAck, Marking}
                then t.child == Explaining && t.explained && t.crest == u.codec.encode(Failed(u.nonce, s.heard))
                else t.child == Dead && t.explained == s.explained && t.crest == s.crest)
  {
  }

  // ---------- the invariant ----------

  /** What travels towards the child: nothing, the configuration, or one acknowledgment. */
  function RequestFlow(u: Setup, s: State): bytes {
    if !s.configured then u.codec.encode(Config(u.nonce, u.details))
    else if s.taken > s.heard then u.codec.encode(Ack(u.nonce, s.heard)) else []
  }

  /** What travels towards the parent: nothing or one report, and the explanation of a failed child. */
  function ResponseFlow(u: Setup, s: State): bytes
    requires s.taken < |s.emitted| ==> s.taken < |Stages(u)|
  {
    (if s.taken < |s.emitted| then u.codec.encode(ReportOf(u, s.taken, s.emitted[s.taken])) else [])
    + (if s.explained then u.codec.encode(Failed(u.nonce, s.heard)) else [])
  }

  function ArmRows(u: Setup, s: State): seq<Observation>
    requires s.taken <= |s.emitted|
  {
    if s.taken == 0 then [] else s.emitted[1..if s.taken == |Stages(u)| then s.taken - 1 else s.taken]
  }

  predicate Counts(u: Setup, s: State) {
    s.heard <= s.taken <= |s.emitted| <= |Stages(u)| && |s.emitted| <= s.heard + 1
  }

  predicate ParentOk(u: Setup, s: State) {
    match s.parent
    case Configuring => s.taken == 0 && s.prest != [] && s.pbuf == []
    case Reading => s.taken < |Stages(u)| && s.prest == [] && !HasLf(s.pbuf)
    case Acking => s.taken == s.heard + 1 && s.prest != [] && s.pbuf == []
    case Completed => s.taken == |Stages(u)| && s.prest == [] && s.pbuf == []
    case Broken => s.prest == [] ==> s.taken < |Stages(u)|
  }

  predicate ChildOk(u: Setup, s: State) {
    match s.child
    case AwaitingConfig => s.emitted == [] && s.crest == [] && !HasLf(s.cbuf)
    case Working => |s.emitted| == s.heard < |Stages(u)| && s.cbuf == [] && s.crest == []
    case Reporting => |s.emitted| == s.heard + 1 && s.cbuf == [] && s.crest != []
    case AwaitingAck => |s.emitted| == s.heard + 1 && s.crest == [] && !HasLf(s.cbuf)
    case Marking => s.heard == |Stages(u)| && s.cbuf == [] && s.crest == []
    case Finished => s.heard == |Stages(u)| && s.cbuf == [] && s.crest == []
    case Explaining => s.crest != []
    case Dead => true
  }

  /** The reports the parent accepted met its demands. */
  predicate AllOk(u: Setup, s: State)
    requires s.taken <= |s.emitted| <= |Stages(u)|
  {
    forall j :: 0 <= j < s.taken ==> ObservationOk(Stages(u)[j], s.emitted[j])
  }

  predicate Flows(u: Setup, s: State)
    requires Counts(u, s)
  {
    && s.cbuf + s.request + s.prest == RequestFlow(u, s)
    && s.pbuf + s.response + s.crest == ResponseFlow(u, s)
  }

  predicate Flags(s: State) {
    && (s.child == AwaitingConfig ==> !s.configured)
    && (s.child !in {AwaitingConfig, Dead} ==> s.configured)
    && (!s.configured ==> s.emitted == [])
    && (s.parent == Configuring ==> !s.configured)
    && (s.explained ==> s.configured && s.child in {Explaining, Dead})
    && (s.child == Explaining ==> s.explained)
  }

  /** What every reachable state satisfies, whoever failed. */
  predicate Inv(u: Setup, s: State) {
    Counts(u, s) && ParentOk(u, s) && ChildOk(u, s) && AllOk(u, s) && s.rows == ArmRows(u, s) && Flags(s) && Flows(u, s)
  }

  // ---------- lines ----------

  lemma LineGrows(buf: bytes, b: byte)
    requires !HasLf(buf)
    ensures if b == LF then IsLine(buf + [b]) else !HasLf(buf + [b])
  {
    assert (buf + [b])[..|buf|] == buf;
  }

  /** A line at the front of a flow is the frame in flight. */
  lemma FirstLine(e: bytes, tail: bytes, p: bytes, q: bytes)
    requires IsLine(e) && IsLine(p) && p + q == e + tail
    ensures p == e && q == tail
  {
    var whole := p + q;
    assert whole[|e| - 1] == e[|e| - 1] && whole[|p| - 1] == p[|p| - 1];
    if |p| < |e| {
      assert false;
    } else if |e| < |p| {
      assert false;
    } else {
      assert whole[..|p|] == p && whole[..|e|] == e && whole[|p|..] == q && whole[|e|..] == tail;
    }
  }

  /** Moving bytes between the parts of a flow does not change it. */
  lemma Moved(a: bytes, b: bytes, c: bytes, k: nat)
    ensures k <= |c| ==> a + (b + c[..k]) + c[k..] == a + b + c
    ensures b != [] ==> (a + [b[0]]) + b[1..] + c == a + b + c
    ensures a + b + c == a + (b + c)
  {
    if k <= |c| {
      assert c[..k] + c[k..] == c;
    }
    if b != [] {
      assert [b[0]] + b[1..] == b;
    }
  }

  // ---------- every step keeps the invariant ----------

  /** What depends on the counts and flags only. */
  lemma SameCounts(u: Setup, s: State, t: State)
    requires s.taken == t.taken <= |s.emitted| <= |Stages(u)| && s.emitted == t.emitted
    requires s.heard == t.heard && s.configured == t.configured
    ensures RequestFlow(u, s) == RequestFlow(u, t)
    ensures s.explained == t.explained ==> ResponseFlow(u, s) == ResponseFlow(u, t)
    ensures ArmRows(u, s) == ArmRows(u, t) && (AllOk(u, s) <==> AllOk(u, t))
  {
  }

  lemma StartHolds(u: Setup)
    requires Framed(u.codec)
    ensures Inv(u, Initial(u))
  {
    var line := u.codec.encode(Config(u.nonce, u.details));
    assert IsLine(line);
    assert [] + [] + line == line;
  }

  lemma ParentWriteKeeps(u: Setup, s: State, count: nat)
    requires Inv(u, s) && Enabled(u, s, ParentWrite(count))
    ensures Inv(u, AfterParentWrite(u, s, count))
  {
    Moved(s.cbuf, s.request, s.prest, count);
  }

  lemma ChildWriteKeeps(u: Setup, s: State, count: nat)
    requires Inv(u, s) && Enabled(u, s, ChildWrite(count))
    ensures Inv(u, AfterChildWrite(u, s, count))
  {
    Moved(s.pbuf, s.response, s.crest, count);
  }

  lemma ChildFailKeeps(u: Setup, s: State)
    requires Framed(u.codec) && Inv(u, s) && Enabled(u, s, ChildFail)
    ensures Inv(u, AfterChildFail(u, s))
  {
    hide HasLf, IsLine, ArmRows, AllOk, Framed, Stages, RequestFlow;
    var t := AfterChildFail(u, s);
    SameCounts(u, s, s.(child := Dead));
    if s.child == Working || s.child == AwaitingAck || s.child == Marking {
      EncodedIsLine(u.codec, Failed(u.nonce, s.heard));
      LineNonEmpty(t.crest);
      assert s.pbuf + s.response + s.crest == s.pbuf + s.response;
      SameCounts(u, s, t);
    }
  }

  lemma EmitKeeps(u: Setup, s: State, o: Observation)
    requires Framed(u.codec) && Inv(u, s) && Enabled(u, s, ChildEmit(o))
    ensures Inv(u, AfterEmit(u, s, o))
  {
    var line := u.codec.encode(ReportOf(u, |s.emitted|, o));
    assert IsLine(line);
    if |line| > MAX_FRAME {
      ChildFailKeeps(u, s);
    } else {
      var t := AfterEmit(u, s, o);
      assert |s.pbuf + s.response + s.crest| == 0;
      assert s.pbuf == [] && s.response == [];
      assert ResponseFlow(u, t) == line;
    }
  }

  /** A full line the parent read is the report in flight; with none in flight it is the child's explanation. */
  lemma ParentLine(u: Setup, s: State, buf: bytes, rest: bytes)
    requires Framed(u.codec) && Inv(u, s) && s.taken < |Stages(u)|
    requires IsLine(buf) && buf + rest == ResponseFlow(u, s)
    ensures s.taken < |s.emitted| ==>
              u.codec.decode(buf) == Some(ReportOf(u, s.taken, s.emitted[s.taken]))
              && rest == ResponseFlow(u, s)[|buf|..] == ResponseFlow(u, s.(taken := s.taken + 1))
    ensures s.taken == |s.emitted| ==> u.codec.decode(buf) == Some(Failed(u.nonce, s.heard))
  {
    hide AllOk, ArmRows, Flags, IsLine;
    var last := u.codec.encode(Failed(u.nonce, s.heard));
    if s.taken < |s.emitted| {
      var report := u.codec.encode(ReportOf(u, s.taken, s.emitted[s.taken]));
      var tail := if s.explained then last else [];
      FirstLine(report, tail, buf, rest);
      assert (report + tail)[|report|..] == tail;
      assert s.taken + 1 == |s.emitted|;
    } else {
      assert buf != [] by { hide *; LineNonEmpty(buf); }
      assert s.explained;
      assert last + [] == last;
      FirstLine(last, [], buf, rest);
    }
  }

  lemma EncodedIsLine(c: Codec, f: Frame)
    requires Framed(c)
    ensures IsLine(c.encode(f)) && c.decode(c.encode(f)) == Some(f)
  {
  }

  lemma LineNonEmpty(s: bytes)
    requires IsLine(s)
    ensures s != []
  {
  }

  lemma ParentReadKeeps(u: Setup, s: State)
    requires Framed(u.codec) && WellNamed(u) && Inv(u, s) && Enabled(u, s, ParentRead)
    ensures Inv(u, AfterParentRead(u, s))
  {
    hide IsLine, HasLf, Framed, ArmRows, AllOk, ResponseFlow, RequestFlow, Flags, ChildOk, WellNamed, Accepts;
    var buf := s.pbuf + [s.response[0]];
    var t := AfterParentRead(u, s);
    Moved(s.pbuf, s.response, s.crest, 0);
    ReadBytesKeep(u, s);
    LineGrows(s.pbuf, s.response[0]);
    if |buf| <= MAX_FRAME && s.response[0] == LF && Accepts(u, s.taken, u.codec.decode(buf)) {
      ParentLine(u, s, buf, s.response[1..] + s.crest);
      OnlyReportsAccepted(u, s.taken, u.codec.decode(buf));
      assert s.taken < |s.emitted|;
      ParentTakes(u, s, t);
    }
  }

  lemma OnlyReportsAccepted(u: Setup, k: nat, frame: Option<Frame>)
    requires k < |Stages(u)| && Accepts(u, k, frame)
    ensures frame.Some? && frame.value.Report?
  {
  }

  /** Keeping the byte read, or giving up, keeps the invariant. */
  lemma ReadBytesKeep(u: Setup, s: State)
    requires Inv(u, s) && Enabled(u, s, ParentRead)
    ensures var t := s.(pbuf := s.pbuf + [s.response[0]], response := s.response[1..]);
            Inv(u, t.(parent := Broken)) && (s.response[0] != LF ==> Inv(u, t))
  {
    hide HasLf, IsLine, RequestFlow, ResponseFlow, ArmRows, AllOk;
    var t := s.(pbuf := s.pbuf + [s.response[0]], response := s.response[1..]);
    SameCounts(u, s, t);
    SameCounts(u, s, t.(parent := Broken));
    Moved(s.pbuf, s.response, s.crest, 0);
    LineGrows(s.pbuf, s.response[0]);
  }

  lemma ParentTakes(u: Setup, s: State, t: State)
    requires Framed(u.codec) && WellNamed(u) && Inv(u, s) && s.parent == Reading && s.taken < |s.emitted|
    requires s.response != [] && Accepts(u, s.taken, Some(ReportOf(u, s.taken, s.emitted[s.taken])))
    requires s.response[1..] + s.crest == ResponseFlow(u, s.(taken := s.taken + 1))
    requires t == s.(response := s.response[1..], pbuf := [], prest := u.codec.encode(Ack(u.nonce, s.taken)), parent := Acking,
                     taken := s.taken + 1,
                     rows := if Stages(u)[s.taken] in ["ready", "done"] then s.rows else s.rows + [s.emitted[s.taken]])
    ensures Inv(u, t)
  {
    hide HasLf, ArmRows, AllOk, Accepts, Stages, IsLine, ObservationOk, ResponseFlow, Framed, WellNamed;
    RowsGrow(u, s);
    OkGrows(u, s);
    SameCounts(u, s.(taken := s.taken + 1), t);
    EncodedIsLine(u.codec, Ack(u.nonce, s.taken));
    LineNonEmpty(t.prest);
    AckFlows(u, s, t);
  }

  lemma AckFlows(u: Setup, s: State, t: State)
    requires Counts(u, s) && Counts(u, t) && Flows(u, s) && s.configured && s.taken == s.heard && s.prest == []
    requires t.cbuf == s.cbuf && t.request == s.request && t.prest == u.codec.encode(Ack(u.nonce, s.heard))
    requires t.taken == s.taken + 1 && t.heard == s.heard && t.configured
    requires t.pbuf == [] && t.response + t.crest == ResponseFlow(u, t)
    ensures Flows(u, t)
  {
    hide Counts, ResponseFlow;
    assert |s.cbuf + s.request + s.prest| == 0;
    assert s.cbuf == [] && s.request == [];
    assert t.pbuf + t.response + t.crest == t.response + t.crest;
  }

  lemma OkGrows(u: Setup, s: State)
    requires Counts(u, s) && AllOk(u, s) && s.taken < |s.emitted|
    requires Accepts(u, s.taken, Some(ReportOf(u, s.taken, s.emitted[s.taken])))
    ensures AllOk(u, s.(taken := s.taken + 1))
  {
  }

  lemma RowsGrow(u: Setup, s: State)
    requires WellNamed(u) && Counts(u, s) && s.taken < |s.emitted|
    ensures ArmRows(u, s.(taken := s.taken + 1))
            == if Stages(u)[s.taken] in ["ready", "done"] then ArmRows(u, s) else ArmRows(u, s) + [s.emitted[s.taken]]
  {
    if 0 < s.taken < |Stages(u)| - 1 {
      assert Stages(u)[s.taken] == u.arms[s.taken - 1];
      assert s.emitted[1..s.taken + 1] == s.emitted[1..s.taken] + [s.emitted[s.taken]];
    }
  }

  lemma ChildReadKeeps(u: Setup, s: State)
    requires Framed(u.codec) && Inv(u, s) && Enabled(u, s, ChildRead)
    ensures Inv(u, AfterChildRead(u, s))
  {
    hide IsLine, HasLf, Framed;
    var buf := s.cbuf + [s.request[0]];
    var t := s.(cbuf := buf, request := s.request[1..]);
    Moved(s.cbuf, s.request, s.prest, 0);
    LineGrows(s.cbuf, s.request[0]);
    if |buf| <= MAX_FRAME && s.request[0] != LF {
      assert Inv(u, t);
    } else {
      ChildFailKeepsAny(u, s, t);
      if |buf| <= MAX_FRAME {
        if s.child == AwaitingConfig {
          ConfigHeard(u, s, t);
        } else {
          AckHeard(u, s, t);
        }
      }
    }
  }

  /** Failing right after a read keeps the invariant, whatever was read. */
  lemma ChildFailKeepsAny(u: Setup, s: State, t: State)
    requires Framed(u.codec) && Inv(u, s) && (s.child == AwaitingConfig || s.child == AwaitingAck) && s.request != []
    requires t == s.(cbuf := s.cbuf + [s.request[0]], request := s.request[1..])
    ensures Inv(u, AfterChildFail(u, t))
  {
    hide Inv, Framed, Enabled;
    assert Enabled(u, s, ChildFail) by { FailEnabled(u, s); }
    ChildFailKeeps(u, s);
    DeadReadKeeps(u, AfterChildFail(u, s));
  }

  lemma FailEnabled(u: Setup, s: State)
    requires s.child == AwaitingConfig || s.child == AwaitingAck
    ensures Enabled(u, s, ChildFail)
  {
  }

  lemma DeadReadKeeps(u: Setup, s: State)
    requires Inv(u, s) && (s.child == Explaining || s.child == Dead) && s.request != []
    ensures Inv(u, s.(cbuf := s.cbuf + [s.request[0]], request := s.request[1..]))
  {
    hide HasLf, Stages, RequestFlow, ResponseFlow, ArmRows, AllOk;
    var t := s.(cbuf := s.cbuf + [s.request[0]], request := s.request[1..]);
    SameCounts(u, s, t);
    Moved(s.cbuf, s.request, s.prest, 0);
  }

  /** A line read from what is in flight leaves nothing behind it. */
  lemma WholeLineRead(line: bytes, buf: bytes, request: bytes, prest: bytes)
    requires IsLine(line) && request != [] && buf + request + prest == line && IsLine(buf + [request[0]])
    ensures buf + [request[0]] == line && request[1..] == [] && prest == []
  {
    hide IsLine;
    Moved(buf, request, prest, 0);
    assert line + [] == line;
    FirstLine(line, [], buf + [request[0]], request[1..] + prest);
    assert |request[1..] + prest| == 0;
  }

  lemma ConfigHeard(u: Setup, s: State, t: State)
    requires Framed(u.codec) && Inv(u, s) && s.child == AwaitingConfig && s.request != []
    requires t == s.(cbuf := s.cbuf + [s.request[0]], request := s.request[1..]) && IsLine(t.cbuf)
    ensures Inv(u, t.(cbuf := [], child := Working, configured := true))
  {
    hide HasLf, IsLine, ArmRows, AllOk, Framed, Stages, ResponseFlow;
    EncodedIsLine(u.codec, Config(u.nonce, u.details));
    WholeLineRead(u.codec.encode(Config(u.nonce, u.details)), s.cbuf, s.request, s.prest);
    assert ResponseFlow(u, s) == ResponseFlow(u, t.(cbuf := [], child := Working, configured := true)) by {
      SameResponse(u, s, t.(cbuf := [], child := Working, configured := true));
    }
    SameOthers(u, s, t.(cbuf := [], child := Working, configured := true));
  }

  lemma SameResponse(u: Setup, s: State, t: State)
    requires s.taken == t.taken && s.emitted == t.emitted && s.explained == t.explained && (s.explained ==> s.heard == t.heard)
    requires s.taken < |s.emitted| ==> s.taken < |Stages(u)|
    ensures ResponseFlow(u, s) == ResponseFlow(u, t)
  {
  }

  /** What depends on the reports alone. */
  lemma SameOthers(u: Setup, s: State, t: State)
    requires s.taken == t.taken <= |s.emitted| <= |Stages(u)| && s.emitted == t.emitted
    ensures ArmRows(u, s) == ArmRows(u, t) && (AllOk(u, s) <==> AllOk(u, t))
  {
  }

  lemma AckHeard(u: Setup, s: State, t: State)
    requires Framed(u.codec) && Inv(u, s) && s.child == AwaitingAck && s.request != []
    requires t == s.(cbuf := s.cbuf + [s.request[0]], request := s.request[1..]) && IsLine(t.cbuf)
    ensures Inv(u, t.(cbuf := [], heard := s.heard + 1,
                      child := if s.heard + 1 < |Stages(u)| then Working else Marking))
  {
    hide HasLf, IsLine, ArmRows, AllOk, Framed, Stages, ResponseFlow;
    assert |s.cbuf + s.request + s.prest| > 0;
    assert s.configured && s.taken > s.heard;
    EncodedIsLine(u.codec, Ack(u.nonce, s.heard));
    WholeLineRead(u.codec.encode(Ack(u.nonce, s.heard)), s.cbuf, s.request, s.prest);
    var n := t.(cbuf := [], heard := s.heard + 1, child := if s.heard + 1 < |Stages(u)| then Working else Marking);
    SameResponse(u, s, n);
    SameOthers(u, s, n);
  }

  lemma StepKeeps(u: Setup, s: State, step: Step)
    requires Framed(u.codec) && WellNamed(u) && Inv(u, s) && Enabled(u, s, step)
    ensures Inv(u, Apply(u, s, step))
  {
    hide Inv, Framed, WellNamed, AfterParentWrite, AfterParentRead, AfterChildWrite, AfterChildRead, AfterEmit, AfterChildFail;
    match step
    case ParentWrite(count) => ParentWriteKeeps(u, s, count);
    case ParentRead => ParentReadKeeps(u, s);
    case ParentFail => ParentFailKeeps(u, s);
    case ChildWrite(count) => ChildWriteKeeps(u, s, count);
    case ChildRead => ChildReadKeeps(u, s);
    case ChildEmit(o) => EmitKeeps(u, s, o);
    case ChildMark => MarkKeeps(u, s);
    case ChildFail => ChildFailKeeps(u, s);
  }

  lemma MarkKeeps(u: Setup, s: State)
    requires Inv(u, s) && s.child == Marking
    ensures Inv(u, s.(child := Finished))
  {
    hide HasLf, Stages;
    SameCounts(u, s, s.(child := Finished));
    hide RequestFlow, ResponseFlow, ArmRows, AllOk;
  }

  lemma ParentFailKeeps(u: Setup, s: State)
    requires Inv(u, s) && s.parent != Completed && s.parent != Broken
    ensures Inv(u, s.(parent := Broken))
  {
  }

  lemma {:induction false} Reachable(u: Setup, steps: seq<Step>)
    requires Framed(u.codec) && WellNamed(u) && After(u, steps).Some?
    ensures Inv(u, After(u, steps).value)
  {
    hide Inv, Framed, WellNamed, Apply, Enabled;
    if steps == [] {
      StartHolds(u);
    } else {
      Reachable(u, steps[..|steps| - 1]);
      StepKeeps(u, After(u, steps[..|steps| - 1]).value, steps[|steps| - 1]);
    }
  }

  // ---------- what the exchange guarantees ----------

  /**
   A completed exchange has recorded exactly what the child reported for the arms, once each and in order,
   and a child that has all its acknowledgments, even one that then fails, has a parent that completed.
   */
  lemma CompletedRowsAreTheArms(u: Setup, steps: seq<Step>)
    requires Framed(u.codec) && WellNamed(u) && After(u, steps).Some?
    ensures var s := After(u, steps).value;
            && (s.child == Marking || s.child == Finished ==> s.heard == |Stages(u)|)
            && (s.heard == |Stages(u)| ==> s.parent == Completed)
            && (s.parent == Completed ==>
                  && |s.emitted| == |u.arms| + 2 && s.rows == s.emitted[1..|u.arms| + 1]
                  && s.emitted[0].Port? && s.emitted[|u.arms| + 1].Empty?
                  && forall j :: 0 <= j < |u.arms| ==> s.rows[j].Arm? && s.rows[j].arm == u.arms[j])
  {
    hide Framed, After, Inv, WellNamed;
    Reachable(u, steps);
    var s := After(u, steps).value;
    AllHeard(u, s);
    if s.heard == |Stages(u)| {
      FinishedMeansCompleted(u, s);
    }
    if s.parent == Completed {
      CompletedRows(u, s);
    }
  }

  lemma AllHeard(u: Setup, s: State)
    requires Inv(u, s)
    ensures s.child == Marking || s.child == Finished ==> s.heard == |Stages(u)|
  {
    hide HasLf, ArmRows, AllOk, ResponseFlow, RequestFlow, Stages;
  }

  /** Also a child that fails while it marks its exit has heard everything. */
  lemma FinishedMeansCompleted(u: Setup, s: State)
    requires Inv(u, s) && s.heard == |Stages(u)|
    ensures s.parent == Completed
  {
    hide HasLf, ArmRows, AllOk, ResponseFlow, Stages;
    assert s.configured;
    assert s.cbuf + s.request + s.prest == [];
    assert |s.prest| <= |s.cbuf + s.request + s.prest|;
  }

  lemma CompletedRows(u: Setup, s: State)
    requires WellNamed(u) && Inv(u, s) && s.parent == Completed
    ensures |s.emitted| == |u.arms| + 2 && s.rows == s.emitted[1..|u.arms| + 1]
    ensures s.emitted[0].Port? && s.emitted[|u.arms| + 1].Empty?
    ensures forall j :: 0 <= j < |u.arms| ==> s.rows[j].Arm? && s.rows[j].arm == u.arms[j]
  {
    hide HasLf, RequestFlow, ResponseFlow;
    assert ObservationOk(Stages(u)[0], s.emitted[0]) && ObservationOk(Stages(u)[|u.arms| + 1], s.emitted[|u.arms| + 1]);
    forall j | 0 <= j < |u.arms| ensures s.rows[j].Arm? && s.rows[j].arm == u.arms[j] {
      assert s.rows[j] == s.emitted[j + 1] && Stages(u)[j + 1] == u.arms[j];
      assert u.arms[j] in u.arms;
    }
  }

  function CountLf(s: bytes): nat
    decreases |s|
  {
    if s == [] then 0 else CountLf(s[..|s| - 1]) + (if s[|s| - 1] == LF then 1 else 0)
  }

  lemma {:induction false} CountConcat(a: bytes, b: bytes)
    ensures CountLf(a + b) == CountLf(a) + CountLf(b)
    decreases |b|
  {
    if b == [] {
      assert a + b == a;
    } else {
      assert (a + b)[..|a + b| - 1] == a + b[..|b| - 1];
      CountConcat(a, b[..|b| - 1]);
    }
  }

  lemma {:induction false} NoLfNoCount(s: bytes)
    requires !HasLf(s)
    ensures CountLf(s) == 0
    decreases |s|
  {
    if s != [] {
      NoLfNoCount(s[..|s| - 1]);
    }
  }

  lemma LineCount(s: bytes)
    requires IsLine(s)
    ensures CountLf(s) == 1
  {
    NoLfNoCount(s[..|s| - 1]);
  }

  /** The parent's loop variable `sequence`. */
  function ParentSequence(s: State): int {
    if s.parent == Acking || s.parent == Completed then s.taken - 1 else s.taken
  }

  /**
   Parent and child are never more than one frame apart, and once the child is configured at most one frame
   is unread on the two pipes together, besides the last words of a child that failed.
   */
  lemma AtMostOneFrameUnread(u: Setup, steps: seq<Step>)
    requires Framed(u.codec) && WellNamed(u) && After(u, steps).Some?
    ensures var s := After(u, steps).value;
            && -1 <= ParentSequence(s) - s.heard <= 1
            && (s.configured ==> CountLf(s.request) + CountLf(s.response) <= 1 + if s.explained then 1 else 0)
  {
    hide IsLine, HasLf, Framed, ArmRows, AllOk, ReportOf, Stages, Flags;
    Reachable(u, steps);
    var s := After(u, steps).value;
    if s.configured {
      CountThree(s.cbuf, s.request, s.prest);
      CountThree(s.pbuf, s.response, s.crest);
      FlowCounts(u, s);
    }
  }

  lemma CountThree(a: bytes, b: bytes, c: bytes)
    ensures CountLf(b) <= CountLf(a + b + c)
  {
    CountConcat(a + b, c);
    CountConcat(a, b);
  }

  lemma FlowCounts(u: Setup, s: State)
    requires Framed(u.codec) && Counts(u, s) && s.configured
    ensures CountLf(RequestFlow(u, s)) + CountLf(ResponseFlow(u, s)) <= 1 + if s.explained then 1 else 0
  {
    hide IsLine, Framed;
    var ack, last := Ack(u.nonce, s.heard), Failed(u.nonce, s.heard);
    EncodedIsLine(u.codec, ack);
    EncodedIsLine(u.codec, last);
    LineCount(u.codec.encode(ack));
    LineCount(u.codec.encode(last));
    assert CountLf([]) == 0;
    var report := if s.taken < |s.emitted| then u.codec.encode(ReportOf(u, s.taken, s.emitted[s.taken])) else [];
    if s.taken < |s.emitted| {
      EncodedIsLine(u.codec, ReportOf(u, s.taken, s.emitted[s.taken]));
      LineCount(report);
    }
    CountConcat(report, if s.explained then u.codec.encode(last) else []);
  }

  // ---------- every run ends, and no healthy state is stuck ----------

  function ParentRank(u: Setup, s: State): int {
    var left := |Stages(u)| - s.taken;
    match s.parent
    case Configuring => 2 * left + 1
    case Reading => 2 * left
    case Acking => 2 * left + 1
    case Completed => 0
    case Broken => -1
  }

  function ChildRank(u: Setup, s: State): int {
    var left := |Stages(u)| - s.heard;
    match s.child
    case AwaitingConfig => 3 * left + 3
    case Working => 3 * left + 2
    case Reporting => 3 * left + 1
    case AwaitingAck => 3 * left
    case Marking => 2
    case Explaining => 1
    case Finished => 0
    case Dead => 0
  }

  function BytesLeft(s: State): nat {
    2 * |s.prest| + 2 * |s.crest| + |s.request| + |s.response|
  }

  /** The measure fell: first the ranks count, then the bytes. */
  predicate Lowered(u: Setup, s: State, t: State) {
    var before, after := ParentRank(u, s) + ChildRank(u, s), ParentRank(u, t) + ChildRank(u, t);
    -1 <= after && (after < before || (after == before && BytesLeft(t) < BytesLeft(s)))
  }

  /** Every step lowers a bounded measure, so every run is finite, whatever fails. */
  lemma EveryStepLowers(u: Setup, s: State, step: Step)
    requires Framed(u.codec) && Inv(u, s) && Enabled(u, s, step)
    ensures Lowered(u, s, Apply(u, s, step))
  {
    hide HasLf, Framed, ArmRows, AllOk, Stages, RequestFlow, ResponseFlow, Flags, Accepts, ReportOf, Flows;
    hide AfterParentWrite, AfterParentRead, AfterChildWrite, AfterChildRead, AfterEmit, AfterChildFail;
    match step
    case ParentWrite(count) => WritesLower(u, s, count);
    case ParentRead => ParentReadLowers(u, s);
    case ParentFail =>
    case ChildWrite(count) => WritesLower(u, s, count);
    case ChildRead => ChildReadLowers(u, s);
    case ChildEmit(o) => EmitLowers(u, s, o);
    case ChildMark =>
    case ChildFail => ChildFailLowers(u, s);
  }

  lemma WritesLower(u: Setup, s: State, count: nat)
    requires Counts(u, s) && ParentOk(u, s) && ChildOk(u, s)
    ensures Enabled(u, s, ParentWrite(count)) ==> Lowered(u, s, AfterParentWrite(u, s, count))
    ensures Enabled(u, s, ChildWrite(count)) ==> Lowered(u, s, AfterChildWrite(u, s, count))
  {
    hide HasLf, Stages;
  }

  lemma ParentReadLowers(u: Setup, s: State)
    requires Counts(u, s) && ParentOk(u, s) && ChildOk(u, s) && Enabled(u, s, ParentRead)
    ensures Lowered(u, s, AfterParentRead(u, s))
  {
    hide HasLf, Stages, Accepts;
  }

  lemma ChildReadLowers(u: Setup, s: State)
    requires Counts(u, s) && ParentOk(u, s) && ChildOk(u, s) && Enabled(u, s, ChildRead)
    ensures Lowered(u, s, AfterChildRead(u, s))
  {
    hide HasLf, Stages, AfterChildFail;
    FailAfterReadLowers(u, s, s.(cbuf := s.cbuf + [s.request[0]], request := s.request[1..]));
  }

  lemma FailAfterReadLowers(u: Setup, s: State, t: State)
    requires Counts(u, s) && ParentOk(u, s) && ChildOk(u, s) && Enabled(u, s, ChildRead)
    requires t == s.(cbuf := s.cbuf + [s.request[0]], request := s.request[1..])
    ensures Lowered(u, s, AfterChildFail(u, t))
  {
    hide HasLf, Stages;
  }

  lemma EmitLowers(u: Setup, s: State, o: Observation)
    requires Counts(u, s) && ParentOk(u, s) && ChildOk(u, s) && Enabled(u, s, ChildEmit(o))
    ensures Lowered(u, s, AfterEmit(u, s, o))
  {
    hide HasLf, Stages, ReportOf;
  }

  lemma ChildFailLowers(u: Setup, s: State)
    requires Counts(u, s) && ParentOk(u, s) && ChildOk(u, s) && Enabled(u, s, ChildFail)
    ensures Lowered(u, s, AfterChildFail(u, s))
  {
    hide HasLf, Stages;
  }

  predicate Healthy(s: State) {
    s.parent != Broken && s.child != Explaining && s.child != Dead
  }

  predicate Over(s: State) {
    s.parent == Completed && s.child == Finished
  }

  /** The step a healthy state can always take, no side waiting for the other in a circle; `o` is reported if it is a report. */
  function Progress(s: State, o: Observation): Step {
    if s.parent == Configuring || s.parent == Acking then ParentWrite(|s.prest|)
    else if s.child == Reporting then ChildWrite(|s.crest|)
    else if s.child == Working then ChildEmit(o)
    else if s.child == Marking then ChildMark
    else if s.request != [] then ChildRead
    else ParentRead
  }

  /** A child that waits in vain has a parent with something to read. */
  lemma WaitingHasBytes(u: Setup, s: State)
    requires Framed(u.codec) && Inv(u, s) && (s.parent == Reading || s.parent == Completed)
    requires (s.child == AwaitingConfig || s.child == AwaitingAck) && s.request == []
    ensures s.parent == Reading && s.taken < |Stages(u)| && s.response != []
  {
    hide IsLine, HasLf, Framed, ArmRows, AllOk, Stages, ReportOf, RequestFlow, ResponseFlow;
    FlowsNonEmpty(u, s);
    assert s.cbuf + s.request + s.prest == s.cbuf;
    assert s.configured && s.taken == s.heard;
    assert s.pbuf + s.response + s.crest == s.pbuf + s.response;
    assert s.pbuf + [] == s.pbuf;
  }

  /** A side with something to write can write it. */
  lemma WritersCanWrite(u: Setup, s: State)
    requires Inv(u, s)
    ensures s.parent == Configuring || s.parent == Acking ==> s.prest != []
    ensures s.child == Reporting ==> s.crest != []
    ensures s.child == Working ==> |s.emitted| < |Stages(u)|
  {
    hide HasLf, Stages, ArmRows, AllOk, Flows;
  }

  /** In every reachable state in which nothing failed and the exchange is not over, some side can take a step. */
  lemma NoDeadlock(u: Setup, steps: seq<Step>, o: Observation)
    requires Framed(u.codec) && WellNamed(u) && After(u, steps).Some?
    requires Healthy(After(u, steps).value) && !Over(After(u, steps).value)
    ensures Enabled(u, After(u, steps).value, Progress(After(u, steps).value, o))
  {
    hide Framed, WellNamed, After, Inv, Stages;
    Reachable(u, steps);
    var s := After(u, steps).value;
    WritersCanWrite(u, s);
    if s.parent == Reading || s.parent == Completed {
      if s.child == Finished {
        AllHeard(u, s);
        FinishedMeansCompleted(u, s);
      } else if (s.child == AwaitingConfig || s.child == AwaitingAck) && s.request == [] {
        WaitingHasBytes(u, s);
      }
    }
  }

  /** While something is in flight, the flow ends in a line feed. */
  lemma FlowsNonEmpty(u: Setup, s: State)
    requires Framed(u.codec) && Counts(u, s) && !s.explained
    ensures !s.configured || s.taken > s.heard ==> HasLf(RequestFlow(u, s))
    ensures s.taken < |s.emitted| ==> HasLf(ResponseFlow(u, s))
  {
    hide Framed;
    EncodedIsLine(u.codec, Config(u.nonce, u.details));
    EncodedIsLine(u.codec, Ack(u.nonce, s.heard));
    if s.taken < |s.emitted| {
      var report := u.codec.encode(ReportOf(u, s.taken, s.emitted[s.taken]));
      EncodedIsLine(u.codec, ReportOf(u, s.taken, s.emitted[s.taken]));
      assert ResponseFlow(u, s) == report;
    }
  }

  /** The frames that carry no observation fit the bound. */
  ghost predicate Fits(u: Setup) {
    && |u.codec.encode(Config(u.nonce, u.details))| <= MAX_FRAME
    && forall k :: 0 <= k < |Stages(u)| ==> |u.codec.encode(Ack(u.nonce, k))| <= MAX_FRAME
  }

  /** A report the parent will accept. */
  predicate GoodReport(u: Setup, j: nat, o: Observation) {
    j < |Stages(u)| && ObservationOk(Stages(u)[j], o) && |u.codec.encode(ReportOf(u, j, o))| <= MAX_FRAME
  }

  /** Nothing breaks, and the child reports what its stage calls for. */
  predicate Polite(u: Setup, s: State, step: Step) {
    step != ParentFail && step != ChildFail && (step.ChildEmit? ==> GoodReport(u, |s.emitted|, step.observation))
  }

  predicate PoliteRun(u: Setup, steps: seq<Step>) {
    steps == []
    || (var front, last := steps[..|steps| - 1], steps[|steps| - 1];
        PoliteRun(u, front) && After(u, front).Some?
        && Enabled(u, After(u, front).value, last) && Polite(u, After(u, front).value, last))
  }

  predicate GoodReports(u: Setup, s: State) {
    forall j :: 0 <= j < |s.emitted| ==> GoodReport(u, j, s.emitted[j])
  }

  lemma PoliteReadsSucceed(u: Setup, s: State)
    requires Framed(u.codec) && Fits(u) && Inv(u, s) && Healthy(s) && GoodReports(u, s)
    ensures Enabled(u, s, ParentRead) ==> AfterParentRead(u, s).parent != Broken
    ensures Enabled(u, s, ChildRead) ==> AfterChildRead(u, s).child !in {Explaining, Dead}
  {
    hide Framed, HasLf, IsLine, ArmRows, AllOk, Flags, ResponseFlow, RequestFlow, Stages, ObservationOk, ReportOf;
    if Enabled(u, s, ParentRead) {
      ParentReadSucceeds(u, s);
    }
    if Enabled(u, s, ChildRead) {
      ChildReadSucceeds(u, s);
    }
  }

  lemma ParentReadSucceeds(u: Setup, s: State)
    requires Framed(u.codec) && Inv(u, s) && Healthy(s) && GoodReports(u, s) && Enabled(u, s, ParentRead)
    ensures AfterParentRead(u, s).parent != Broken
  {
    hide Framed, HasLf, IsLine, ArmRows, AllOk, RequestFlow, Stages, ObservationOk;
    var buf, rest := s.pbuf + [s.response[0]], s.response[1..] + s.crest;
    Moved(s.pbuf, s.response, s.crest, 0);
    LineGrows(s.pbuf, s.response[0]);
    assert buf + rest == ResponseFlow(u, s);
    assert |buf| <= |ResponseFlow(u, s)|;
    assert !s.explained;
    assert s.taken < |s.emitted|;
    assert GoodReport(u, s.taken, s.emitted[s.taken]);
    assert ResponseFlow(u, s) == u.codec.encode(ReportOf(u, s.taken, s.emitted[s.taken])) by {
      assert u.codec.encode(ReportOf(u, s.taken, s.emitted[s.taken])) + [] == u.codec.encode(ReportOf(u, s.taken, s.emitted[s.taken]));
    }
    if s.response[0] == LF {
      ParentLine(u, s, buf, rest);
    }
  }

  /** What a waiting child will read. */
  lemma ChildAwaits(u: Setup, s: State)
    requires Inv(u, s) && Healthy(s) && Enabled(u, s, ChildRead)
    ensures s.heard <= |Stages(u)| && !HasLf(s.cbuf) && (s.child == AwaitingConfig || s.child == AwaitingAck)
    ensures s.child == AwaitingAck ==> s.heard < |Stages(u)|
    ensures var frame := if s.child == AwaitingConfig then Config(u.nonce, u.details) else Ack(u.nonce, s.heard);
            s.cbuf + s.request + s.prest == u.codec.encode(frame)
  {
    hide HasLf, ArmRows, AllOk, ResponseFlow, Stages;
    assert s.configured <==> s.child == AwaitingAck;
    assert |s.request| > 0 ==> |s.cbuf + s.request + s.prest| > 0;
  }

  /** Reading on in a line stays within it, up to its line feed. */
  lemma ReadOn(line: bytes, buf: bytes, more: bytes, behind: bytes)
    requires IsLine(line) && more != [] && buf + more + behind == line && !HasLf(buf)
    ensures |buf| < |line| && (more[0] == LF ==> buf + [more[0]] == line)
  {
    hide HasLf, IsLine;
    Moved(buf, more, behind, 0);
    LineGrows(buf, more[0]);
    if more[0] == LF {
      assert line + [] == line;
      FirstLine(line, [], buf + [more[0]], more[1..] + behind);
    }
  }

  lemma AwaitedFits(u: Setup, s: State)
    requires Framed(u.codec) && Fits(u) && (s.child == AwaitingAck ==> s.heard < |Stages(u)|)
    ensures var frame := if s.child == AwaitingConfig then Config(u.nonce, u.details) else Ack(u.nonce, s.heard);
            s.child == AwaitingConfig || s.child == AwaitingAck ==>
              |u.codec.encode(frame)| <= MAX_FRAME && IsLine(u.codec.encode(frame)) && u.codec.decode(u.codec.encode(frame)) == Some(frame)
  {
    hide IsLine, Stages;
  }

  lemma ChildReadSucceeds(u: Setup, s: State)
    requires Framed(u.codec) && Fits(u) && Inv(u, s) && Healthy(s) && Enabled(u, s, ChildRead)
    ensures AfterChildRead(u, s).child !in {Explaining, Dead}
  {
    hide Framed, HasLf, IsLine, Stages, Inv, Fits, AfterChildFail, AfterChildRead;
    ChildAwaits(u, s);
    AwaitedFits(u, s);
    var frame := if s.child == AwaitingConfig then Config(u.nonce, u.details) else Ack(u.nonce, s.heard);
    ReadOn(u.codec.encode(frame), s.cbuf, s.request, s.prest);
    ChildGoesOn(u, s);
  }

  lemma PoliteStepIsHealthy(u: Setup, s: State, step: Step)
    requires Framed(u.codec) && Fits(u) && Inv(u, s) && Healthy(s) && GoodReports(u, s)
    requires Enabled(u, s, step) && Polite(u, s, step)
    ensures Healthy(Apply(u, s, step)) && GoodReports(u, Apply(u, s, step))
  {
    hide Framed, Fits, GoodReport, Accepts, Stages, Inv, ReportOf;
    PoliteReadsSucceed(u, s);
    EmitFits(u, s, step);
  }

  lemma EmitFits(u: Setup, s: State, step: Step)
    requires Enabled(u, s, step) && Polite(u, s, step)
    ensures step.ChildEmit? ==> |u.codec.encode(ReportOf(u, |s.emitted|, step.observation))| <= MAX_FRAME
  {
  }

  lemma {:induction false} PoliteRunIsHealthy(u: Setup, steps: seq<Step>)
    requires Framed(u.codec) && WellNamed(u) && Fits(u) && PoliteRun(u, steps)
    ensures After(u, steps).Some? && Healthy(After(u, steps).value) && GoodReports(u, After(u, steps).value)
  {
    hide Framed, WellNamed, Fits, GoodReport, Enabled, Apply, Polite;
    if steps != [] {
      var front := steps[..|steps| - 1];
      PoliteRunIsHealthy(u, front);
      Reachable(u, front);
      PoliteStepIsHealthy(u, After(u, front).value, steps[|steps| - 1]);
    }
  }

  /**
   A run in which nothing fails and every report is a good one never breaks, and goes on until both sides
   are done: with every step lowering the measure, each such exchange completes.
   */
  lemma PoliteExchangeCompletes(u: Setup, steps: seq<Step>, o: Observation)
    requires Framed(u.codec) && WellNamed(u) && Fits(u) && PoliteRun(u, steps)
    requires After(u, steps).Some?
    requires After(u, steps).value.child == Working ==> GoodReport(u, |After(u, steps).value.emitted|, o)
    ensures Over(After(u, steps).value) || PoliteRun(u, steps + [Progress(After(u, steps).value, o)])
  {
    hide Framed, WellNamed, Fits, GoodReport, Enabled, Apply, Inv, After, PoliteRun, Progress, Healthy;
    PoliteRunIsHealthy(u, steps);
    var s := After(u, steps).value;
    if !Over(s) {
      NoDeadlock(u, steps, o);
      ProgressIsPolite(u, s, o);
      OneMorePolite(u, steps, Progress(s, o));
    }
  }

  lemma ProgressIsPolite(u: Setup, s: State, o: Observation)
    requires s.child == Working ==> GoodReport(u, |s.emitted|, o)
    ensures Polite(u, s, Progress(s, o))
  {
    hide GoodReport;
  }

  lemma OneMorePolite(u: Setup, steps: seq<Step>, step: Step)
    requires PoliteRun(u, steps) && After(u, steps).Some?
    requires Enabled(u, After(u, steps).value, step) && Polite(u, After(u, steps).value, step)
    ensures PoliteRun(u, steps + [step])
  {
    hide Enabled, Polite, Apply;
    assert (steps + [step])[..|steps|] == steps;
  }

  // ---------- the two loops over a pipe ----------

  /** A byte pipe, as the process at one end uses it; `refusals` counts the writes that took no byte. */
  class Pipe {
    var content: bytes
    var refusals: nat

    constructor ()
      ensures content == [] && refusals == 0
    {
      content, refusals := [], 0;
    }

    /** `os.write`: some bytes, at least one, or a refusal. */
    method Write(raw: bytes) returns (count: nat)
      requires raw != []
      modifies this
      ensures count <= |raw| && content == old(content) + raw[..count]
      ensures refusals == old(refusals) + if count == 0 then 1 else 0
    {
      count := *;
      if !(0 < count <= |raw|) {
        count, refusals := 0, refusals + 1;
      }
      content := content + raw[..count];
    }

    /** `_write_frame`: the whole frame, in pieces, unless it is too long or a write is refused; otherwise a proper prefix. */
    method WriteFrame(raw: bytes) returns (ok: bool)
      modifies this
      ensures ok <==> |raw| <= 262144 && refusals == old(refusals)
      ensures ok ==> content == old(content) + raw
      ensures !ok ==> exists k :: 0 <= k < |raw| && content == old(content) + raw[..k]
    {
      if |raw| > MAX_FRAME {
        assert content == old(content) + raw[..0];
        return false;
      }
      var rest := raw;
      while rest != []
        invariant |rest| <= |raw| && rest == raw[|raw| - |rest|..] && content == old(content) + raw[..|raw| - |rest|]
        invariant refusals == old(refusals)
        decreases |rest|
      {
        var count := Write(rest);
        ghost var done := |raw| - |rest|;
        assert raw[..done] + raw[done..][..count] == raw[..done + count];
        if count == 0 {
          return false;
        }
        rest := rest[count..];
      }
      assert raw[..|raw|] == raw;
      return true;
    }

    /** The first line, if it is within so many bytes. */
    static ghost predicate LineWithin(bytes: bytes, limit: nat) {
      exists k :: 0 < k <= |bytes| && k <= limit && IsLine(bytes[..k])
    }

    /**
     `_read_frame`, of what is in the pipe and with so many polls before the deadline: it takes exactly one line
     off the pipe, never a byte of the next, and gives up only over the bound or out of time.
     */
    method ReadFrame(polls: nat) returns (frame: Option<bytes>)
      modifies `content
      ensures frame.Some? ==> IsLine(frame.value) && old(content) == frame.value + content
      ensures frame.Some? <==> LineWithin(old(content), if polls < 262144 then polls else 262144)
      ensures frame.None? ==> exists taken :: old(content) == taken + content && (!HasLf(taken) || |taken| > MAX_FRAME)
    {
      hide HasLf, IsLine, LineWithin;
      var buf: bytes := [];
      assert !HasLf([]) by { NothingHasNoLf(); }
      assert old(content) == buf + content;
      for i := 0 to polls
        invariant old(content) == buf + content && !HasLf(buf) && |buf| <= MAX_FRAME
        invariant |buf| == i || content == []
        invariant |buf| <= i
      {
        if content != [] {
          var value := content[0];
          assert buf + content == (buf + [value]) + content[1..];
          LineGrows(buf, value);
          buf := buf + [value];
          content := content[1..];
          if |buf| > MAX_FRAME {
            NoLineYet(old(content), buf, content, polls);
            return None;
          }
          if value == LF {
            LineFound(old(content), buf, content, polls);
            return Some(buf);
          }
        }
      }
      NoLineInside(old(content), buf, content, polls);
      return None;
    }
  }

  lemma NothingHasNoLf()
    ensures !HasLf([])
  {
  }

  lemma LineFound(whole: bytes, line: bytes, rest: bytes, polls: nat)
    requires whole == line + rest && IsLine(line) && |line| <= polls && |line| <= MAX_FRAME
    ensures Pipe.LineWithin(whole, if polls < 262144 then polls else 262144)
  {
    assert whole[..|line|] == line;
    LineNonEmpty(line);
  }

  /** A line ends at the first line feed. */
  lemma NoLineInside(whole: bytes, taken: bytes, rest: bytes, polls: nat)
    requires whole == taken + rest && !HasLf(taken) && (rest == [] || |taken| >= polls)
    ensures !Pipe.LineWithin(whole, if polls < 262144 then polls else 262144)
  {
    forall k | 0 < k <= |whole| && k <= polls ensures !IsLine(whole[..k]) {
      assert whole[..k][k - 1] == taken[k - 1];
    }
  }

  lemma NoLineYet(whole: bytes, taken: bytes, rest: bytes, polls: nat)
    requires whole == taken + rest && |taken| == MAX_FRAME + 1 && !HasLf(taken[..MAX_FRAME])
    ensures !Pipe.LineWithin(whole, if polls < 262144 then polls else 262144)
  {
    forall k | 0 < k <= |whole| && k <= 262144 ensures !IsLine(whole[..k]) {
      assert whole[..k][k - 1] == taken[..MAX_FRAME][k - 1];
    }
  }
}
