/** Pairing tool calls with their results in the recorded messages of one run. */
module RunWitness {
  import opened Bytes

  const CALLS := 128
  const PROPOSALS := 64

  predicate IsKnown(tool: string) {
    tool in {"web_search", "web_extract", "mcp__vram__vram_status", "tool_search", "tool_describe"}
  }

  // ---------- rows of web results ----------

  /** One row of a web result; a row that is no object has no field. `isTarget` says that the URL is a public address. */
  datatype WebRow = WebRow(isObject: bool, url: Option<string>, isTarget: bool, hasText: bool, isText: bool, errorField: bool,
                           blocked: bool, successFalse: bool)

  datatype Counts = Counts(rows: nat, usable: nat, errors: nat, empty: nat, unbound: nat)

  predicate Bound(r: WebRow, sourceBound: bool) {
    sourceBound && r.isObject && r.url.Some? && r.isTarget
  }

  predicate HasText(r: WebRow) {
    r.isObject && r.hasText
  }

  predicate Failed(r: WebRow) {
    r.isObject && (r.errorField || r.blocked || r.successFalse)
  }

  predicate Usable(r: WebRow, sourceBound: bool, callError: bool) {
    Bound(r, sourceBound) && HasText(r) && !Failed(r) && !callError
  }

  /** How many rows satisfy a predicate. */
  function CountIf(rows: seq<WebRow>, p: WebRow -> bool): nat {
    if rows == [] then 0 else CountIf(rows[..|rows| - 1], p) + if p(rows[|rows| - 1]) then 1 else 0
  }

  function RowCounts(rows: Option<seq<WebRow>>, sourceBound: bool, callError: bool): Counts {
    if rows.None? then Counts(0, 0, 0, 0, 0)
    else
      Counts(|rows.value|, CountIf(rows.value, r => Usable(r, sourceBound, callError)), CountIf(rows.value, r => Failed(r)),
             CountIf(rows.value, r => !HasText(r)), CountIf(rows.value, r => !Bound(r, sourceBound)))
  }

  /** `web_row_counts`; None stands for anything that is no list. */
  method WebRowCounts(rows: Option<seq<WebRow>>, sourceBound: bool, callError: bool) returns (counts: Counts)
    ensures counts == RowCounts(rows, sourceBound, callError)
  {
    if rows.None? {
      return Counts(0, 0, 0, 0, 0);
    }
    var all := rows.value;
    var usable, errors, empty, unbound := 0, 0, 0, 0;
    ghost var u, e, m, b := r => Usable(r, sourceBound, callError), r => Failed(r), r => !HasText(r), r => !Bound(r, sourceBound);
    for i := 0 to |all|
      invariant usable == CountIf(all[..i], u) && errors == CountIf(all[..i], e)
      invariant empty == CountIf(all[..i], m) && unbound == CountIf(all[..i], b)
    {
      var row := all[i];
      assert all[..i + 1][..i] == all[..i] && all[..i + 1][i] == row;
      var bound, text, error := Bound(row, sourceBound), HasText(row), Failed(row);
      usable := usable + if bound && text && !error && !callError then 1 else 0;
      errors := errors + if error then 1 else 0;
      empty := empty + if text then 0 else 1;
      unbound := unbound + if bound then 0 else 1;
    }
    assert all[..|all|] == all;
    return Counts(|all|, usable, errors, empty, unbound);
  }

  /** A usable row has no fault, and without a call error every row is usable or has one. */
  lemma {:induction false} RowsAreAccountedFor(rows: seq<WebRow>, sourceBound: bool, callError: bool)
    ensures var c := RowCounts(Some(rows), sourceBound, callError);
            && c.usable + c.errors <= c.rows && c.usable + c.empty <= c.rows && c.usable + c.unbound <= c.rows
            && (callError || !sourceBound ==> c.usable == 0)
            && (!callError ==> c.rows <= c.usable + c.errors + c.empty + c.unbound)
  {
    if rows != [] {
      RowsAreAccountedFor(rows[..|rows| - 1], sourceBound, callError);
    }
  }

  /** The places of the rows that satisfy a predicate. */
  function Places(rows: seq<WebRow>, p: WebRow -> bool): set<int> {
    set i | 0 <= i < |rows| && p(rows[i])
  }

  lemma {:induction false} CountIfCountsPlaces(rows: seq<WebRow>, p: WebRow -> bool)
    ensures CountIf(rows, p) == |Places(rows, p)|
  {
    if rows != [] {
      var front, last := rows[..|rows| - 1], |rows| - 1;
      CountIfCountsPlaces(front, p);
      assert Places(rows, p) == Places(front, p) + if p(rows[last]) then {last} else {};
    }
  }

  /** A row of public text without any fault, in a source that is bound, of a call without an error. */
  predicate IsEvidence(r: WebRow) {
    r.isObject && r.url.Some? && r.isTarget && r.hasText && !r.errorField && !r.blocked && !r.successFalse
  }

  /** What the five counts count. */
  lemma CountsArePlaces(rows: seq<WebRow>, sourceBound: bool, callError: bool)
    ensures var c := RowCounts(Some(rows), sourceBound, callError);
            && c.rows == |rows|
            && c.usable == |set i | 0 <= i < |rows| && sourceBound && !callError && IsEvidence(rows[i])|
            && c.errors == |set i | 0 <= i < |rows| && rows[i].isObject
                                    && (rows[i].errorField || rows[i].blocked || rows[i].successFalse)|
            && c.empty == |set i | 0 <= i < |rows| && !(rows[i].isObject && rows[i].hasText)|
            && c.unbound == |set i | 0 <= i < |rows| && !(sourceBound && rows[i].isObject && rows[i].url.Some? && rows[i].isTarget)|
  {
    var u, e, m, b := r => Usable(r, sourceBound, callError), r => Failed(r), r => !HasText(r), r => !Bound(r, sourceBound);
    CountIfCountsPlaces(rows, u);
    CountIfCountsPlaces(rows, e);
    CountIfCountsPlaces(rows, m);
    CountIfCountsPlaces(rows, b);
    assert Places(rows, u) == set i | 0 <= i < |rows| && sourceBound && !callError && IsEvidence(rows[i]);
    assert Places(rows, e)
        == set i | 0 <= i < |rows| && rows[i].isObject && (rows[i].errorField || rows[i].blocked || rows[i].successFalse);
    assert Places(rows, m) == set i | 0 <= i < |rows| && !(rows[i].isObject && rows[i].hasText);
    assert Places(rows, b)
        == set i | 0 <= i < |rows| && !(sourceBound && rows[i].isObject && rows[i].url.Some? && rows[i].isTarget);
  }

  // ---------- calls and results ----------

  datatype Requested = NoUrls | NotAList | Listed(urls: seq<Option<string>>)

  datatype Arguments = Arguments(requested: Requested, zeroCommandlines: bool)

  datatype Success = IsTrue | IsFalse | Otherwise

  /** A result object: its fields as far as the witness looks at them. */
  datatype Value = Value(errorField: bool, success: Success, searchRows: Option<seq<WebRow>>, results: Option<seq<WebRow>>,
                         statusShaped: bool)

  /** What the loop meets: a proposed call, or a returned result. */
  datatype Event = Proposed(id: string, tool: string, arguments: Arguments) | Returned(id: string, tool: string, value: Value)

  /** `rows` are the counts of the result's rows; other tools have none. */
  datatype Verdict = Verdict(valid: bool, error: bool, usable: bool, rows: Counts)

  const NO_ROWS := Counts(0, 0, 0, 0, 0)

  function Plus(a: Counts, b: Counts): Counts {
    Counts(a.rows + b.rows, a.usable + b.usable, a.errors + b.errors, a.empty + b.empty, a.unbound + b.unbound)
  }

  /** The source of an extract is what was asked for. */
  predicate AskedFor(rows: Option<seq<WebRow>>, requested: Requested) {
    && requested.Listed? && requested.urls != [] && rows.Some?
    && (forall u :: u in requested.urls ==> u.Some? && u.value != "")
    && (forall r :: r in rows.value ==> r.url.Some?)
    && (set r | r in rows.value :: r.url) == (set u | u in requested.urls)
  }

  predicate Shaped(rows: Option<seq<WebRow>>) {
    rows.Some? && rows.value != [] && forall r :: r in rows.value ==> r.isObject
  }

  predicate SourceBound(v: Value, a: Arguments) {
    a.requested == NoUrls || (Shaped(v.results) && AskedFor(v.results, a.requested))
  }

  predicate ExtractValid(v: Value, a: Arguments) {
    && Shaped(v.results) && SourceBound(v, a)
    && forall r :: r in v.results.value ==> !r.errorField && r.isText && r.hasText
  }

  /** The judgement of one result; None when the witness refuses the whole run. */
  function Judge(tool: string, a: Arguments, v: Value): Option<Verdict> {
    var failed := v.errorField || v.success == IsFalse;
    if tool == "web_search" then
      var counts := RowCounts(v.searchRows, true, failed);
      if failed then Some(Verdict(false, true, false, counts))
      else if v.success == IsTrue && v.searchRows.Some? then Some(Verdict(true, false, counts.usable > 0, counts))
      else None
    else if tool == "web_extract" then
      if failed then Some(Verdict(false, true, false, RowCounts(v.results, false, true)))
      else
        var valid := ExtractValid(v, a);
        var counts := RowCounts(v.results, SourceBound(v, a) && a.requested != NoUrls, false);
        Some(Verdict(valid, !valid, valid && counts.usable > 0, counts))
    else if tool == "mcp__vram__vram_status" && !failed then
      if a.zeroCommandlines && v.statusShaped then Some(Verdict(true, false, false, NO_ROWS)) else None
    else Some(Verdict(!failed, failed, false, NO_ROWS))
  }

  /** A result is a success or an error, and only a success is usable. */
  lemma VerdictIsExclusive(tool: string, a: Arguments, v: Value)
    ensures Judge(tool, a, v).Some? ==> Judge(tool, a, v).value.valid == !Judge(tool, a, v).value.error
    ensures Judge(tool, a, v).Some? && Judge(tool, a, v).value.usable ==>
              Judge(tool, a, v).value.valid && Judge(tool, a, v).value.rows.usable > 0
  {
    hide ExtractValid, SourceBound, RowCounts;
  }

  /** An extract that brought text for every row, from exactly the addresses asked for if any were named. */
  ghost predicate GoodExtract(a: Arguments, v: Value) {
    && v.results.Some? && v.results.value != []
    && (forall r :: r in v.results.value ==> r.isObject && !r.errorField && r.isText && r.hasText)
    && (a.requested != NoUrls ==>
          && a.requested.Listed?
          && (forall u :: u in a.requested.urls ==>
                u.Some? && u.value != "" && exists r :: r in v.results.value && r.url == u)
          && (forall r :: r in v.results.value ==> r.url.Some? && r.url in a.requested.urls))
  }

  /**
   When a result is judged at all, and when it is a success: one with an error field or success false always is
   an error; a search must say success and bring rows, a status must be shaped and asked without command lines,
   an extract must be good, and the two finding tools need nothing more.
   */
  lemma ValidExactly(tool: string, a: Arguments, v: Value)
    ensures Judge(tool, a, v).Some?
            <==> || v.errorField || v.success.IsFalse?
                 || ((tool == "web_search" ==> v.success.IsTrue? && v.searchRows.Some?)
                     && (tool == "mcp__vram__vram_status" ==> a.zeroCommandlines && v.statusShaped))
    ensures Judge(tool, a, v).Some? ==>
              (Judge(tool, a, v).value.valid
               <==> !v.errorField && !v.success.IsFalse? && (tool == "web_extract" ==> GoodExtract(a, v)))
  {
    hide RowCounts, SourceBound, ExtractValid;
    ExtractIsGood(a, v);
  }

  lemma ExtractIsGood(a: Arguments, v: Value)
    ensures ExtractValid(v, a) <==> GoodExtract(a, v)
  {
    if v.results.Some? && a.requested.Listed? {
      var rows, urls := v.results.value, a.requested.urls;
      assert (set r | r in rows :: r.url) == (set u | u in urls)
        <==> (forall u :: u in urls ==> exists r :: r in rows && r.url == u) && (forall r :: r in rows ==> r.url in urls) by {
        SameAddresses(rows, urls);
      }
      assert rows != [] ==> rows[0] in rows;
    }
  }

  lemma SameAddresses(rows: seq<WebRow>, urls: seq<Option<string>>)
    ensures (set r | r in rows :: r.url) == (set u | u in urls)
            <==> (forall u :: u in urls ==> exists r :: r in rows && r.url == u) && (forall r :: r in rows ==> r.url in urls)
  {
    var left, right := set r | r in rows :: r.url, set u | u in urls;
    assert forall u :: u in left <==> exists r :: r in rows && r.url == u;
    assert forall u :: u in right <==> u in urls;
    if left == right {
      forall r | r in rows ensures r.url in urls {
        assert r.url in left;
      }
      forall u | u in urls ensures exists r :: r in rows && r.url == u {
        assert u in left;
      }
    }
  }

  /** The rows that a verdict counts: a search's own, or an extract's, bound to what was asked for by name. */
  lemma RowsJudged(tool: string, a: Arguments, v: Value)
    requires Judge(tool, a, v).Some?
    ensures var c, failed := Judge(tool, a, v).value.rows, v.errorField || v.success.IsFalse?;
            && (tool == "web_search" ==> c == RowCounts(v.searchRows, true, failed))
            && (tool == "web_extract" ==>
                  c == RowCounts(v.results, !failed && a.requested != NoUrls && SourceBound(v, a), failed))
            && (tool != "web_search" && tool != "web_extract" ==> c == NO_ROWS)
  {
    hide RowCounts, SourceBound, ExtractValid;
  }

  /** A result is usable exactly if it is a success of a web tool with a row of evidence, of a named address for an extract. */
  lemma UsableExactly(tool: string, a: Arguments, v: Value)
    requires Judge(tool, a, v).Some?
    ensures var j := Judge(tool, a, v).value;
            j.usable <==>
              && j.valid
              && ((tool == "web_search" && v.searchRows.Some? && exists r :: r in v.searchRows.value && IsEvidence(r))
                  || (tool == "web_extract" && a.requested != NoUrls && v.results.Some?
                      && exists r :: r in v.results.value && IsEvidence(r)))
  {
    hide RowCounts, SourceBound, ExtractValid;
    var failed := v.errorField || v.success.IsFalse?;
    if v.searchRows.Some? {
      SomeUsable(v.searchRows.value, true, failed);
    }
    if v.results.Some? {
      SomeUsable(v.results.value, SourceBound(v, a) && a.requested != NoUrls, failed);
    }
    assert ExtractValid(v, a) ==> SourceBound(v, a) && v.results.Some? by { ValidIsBound(a, v); }
    hide IsEvidence;
  }

  lemma ValidIsBound(a: Arguments, v: Value)
    ensures ExtractValid(v, a) ==> SourceBound(v, a) && v.results.Some?
  {
  }

  lemma SomeUsable(rows: seq<WebRow>, sourceBound: bool, callError: bool)
    ensures RowCounts(Some(rows), sourceBound, callError).usable > 0
            <==> sourceBound && !callError && exists r :: r in rows && IsEvidence(r)
  {
    CountsArePlaces(rows, sourceBound, callError);
    var places := set i | 0 <= i < |rows| && sourceBound && !callError && IsEvidence(rows[i]);
    hide RowCounts;
    if sourceBound && !callError && exists r :: r in rows && IsEvidence(r) {
      var r :| r in rows && IsEvidence(r);
      var i :| 0 <= i < |rows| && rows[i] == r;
      assert i in places;
    }
    if |places| > 0 {
      var i :| i in places;
      assert IsEvidence(rows[i]);
    }
  }

  /** No row is usable and faulty at once, and a call error leaves no row usable. */
  lemma VerdictRows(tool: string, a: Arguments, v: Value)
    ensures Judge(tool, a, v).Some? ==>
              var c := Judge(tool, a, v).value.rows;
              && c.usable + c.errors <= c.rows && c.usable + c.empty <= c.rows && c.usable + c.unbound <= c.rows
              && (v.errorField || v.success == IsFalse ==> c.usable == 0)
  {
    hide ExtractValid, SourceBound, RowCounts;
    FewRows(v.searchRows, true, v.errorField || v.success == IsFalse);
    FewRows(v.results, false, true);
    FewRows(v.results, SourceBound(v, a) && a.requested != NoUrls, false);
  }

  lemma FewRows(rows: Option<seq<WebRow>>, sourceBound: bool, callError: bool)
    ensures var c := RowCounts(rows, sourceBound, callError);
            && c.usable + c.errors <= c.rows && c.usable + c.empty <= c.rows && c.usable + c.unbound <= c.rows
            && (callError ==> c.usable == 0)
  {
    if rows.Some? {
      RowsAreAccountedFor(rows.value, sourceBound, callError);
      hide RowCounts;
    }
  }

  /** The judgement in the order of the loop, row counts included. */
  method JudgeResult(tool: string, a: Arguments, v: Value) returns (verdict: Option<Verdict>)
    ensures verdict == Judge(tool, a, v)
  {
    var error := v.errorField || v.success == IsFalse;
    var callError, sourceBound, valid, usable, rows := error, tool == "web_search", !error, false, NO_ROWS;
    if tool == "web_search" && !error {
      valid := v.success == IsTrue && v.searchRows.Some?;
      if !valid {
        return None;
      }
    } else if tool == "web_extract" && !error {
      sourceBound := SourceBound(v, a);
      valid := ExtractValid(v, a);
      error := !valid;
    } else if tool == "mcp__vram__vram_status" && !error {
      if !(a.zeroCommandlines && v.statusShaped) {
        return None;
      }
    }
    if tool == "web_search" || tool == "web_extract" {
      var bound := sourceBound && (tool == "web_search" || a.requested != NoUrls);
      rows := WebRowCounts(if tool == "web_search" then v.searchRows else v.results, bound, callError);
      usable := valid && rows.usable > 0;
    }
    return Some(Verdict(valid, error, usable, rows));
  }

  // ---------- the pairing ----------

  /** `rows` adds up the counts of the results' rows. */
  datatype Entry = Entry(paired: nat, errors: nat, successes: nat, usable: nat, rows: Counts)

  datatype Proposal = Proposal(tool: string, arguments: Arguments)

  datatype State = State(pending: map<string, Proposal>, seen: set<string>, tools: map<string, Entry>, records: nat)

  function Start(): State {
    State(map[], {}, map[], 0)
  }

  function EntryOf(s: State, tool: string): Entry {
    if tool in s.tools then s.tools[tool] else Entry(0, 0, 0, 0, NO_ROWS)
  }

  function Counted(e: Entry, v: Verdict): Entry {
    Entry(e.paired + 1, e.errors + (if v.error then 1 else 0), e.successes + (if v.valid then 1 else 0),
          e.usable + (if v.usable then 1 else 0), Plus(e.rows, v.rows))
  }

  function AfterCall(s: State, id: string, p: Proposal): State {
    State(s.pending[id := p], s.seen + {id}, s.tools, s.records + 1)
  }

  function Step(s: State, e: Event): Option<State> {
    match e
    case Proposed(id, tool, arguments) =>
      if id in s.seen || |s.seen| >= CALLS || !IsKnown(tool) then None
      else Some(AfterCall(s, id, Proposal(tool, arguments)))
    case Returned(id, tool, value) =>
      if id !in s.pending || s.pending[id].tool != tool then None
      else
        var verdict := Judge(tool, s.pending[id].arguments, value);
        if verdict.None? then None
        else Some(State(s.pending - {id}, s.seen, s.tools[tool := Counted(EntryOf(s, tool), verdict.value)], s.records + 1))
  }

  function Run(events: seq<Event>): Option<State> {
    if events == [] then Some(Start())
    else
      var before := Run(events[..|events| - 1]);
      if before.None? then None else Step(before.value, events[|events| - 1])
  }

  // ---------- an independent account of a run ----------

  function Proposals(events: seq<Event>): nat {
    if events == [] then 0 else Proposals(events[..|events| - 1]) + if events[|events| - 1].Proposed? then 1 else 0
  }

  function Results(events: seq<Event>): nat {
    if events == [] then 0 else Results(events[..|events| - 1]) + if events[|events| - 1].Returned? then 1 else 0
  }

  /** The proposal a result answers. */
  predicate Answers(events: seq<Event>, j: int, k: int) {
    && 0 <= j < k < |events| && events[j].Proposed? && events[k].Returned? && events[j].id == events[k].id
    && events[j].tool == events[k].tool
  }

  predicate JudgedAt(events: seq<Event>, j: int, k: int)
    requires Answers(events, j, k)
  {
    Judge(events[k].tool, events[j].arguments, events[k].value).Some?
  }

  predicate ValidAt(events: seq<Event>, j: int, k: int)
    requires Answers(events, j, k)
  {
    JudgedAt(events, j, k) && Judge(events[k].tool, events[j].arguments, events[k].value).value.valid
  }

  predicate DistinctCalls(events: seq<Event>) {
    forall i, j :: 0 <= i < j < |events| && events[i].Proposed? && events[j].Proposed? ==> events[i].id != events[j].id
  }

  predicate DistinctResults(events: seq<Event>) {
    forall i, j :: 0 <= i < j < |events| && events[i].Returned? && events[j].Returned? ==> events[i].id != events[j].id
  }

  predicate KnownTools(events: seq<Event>) {
    forall k :: 0 <= k < |events| && events[k].Proposed? ==>
      events[k].tool in {"web_search", "web_extract", "mcp__vram__vram_status", "tool_search", "tool_describe"}
  }

  /** A result answers an earlier call of its tool, and can be judged. */
  ghost predicate AnsweredAt(events: seq<Event>, k: int) {
    exists j :: Answers(events, j, k) && JudgedAt(events, j, k)
  }

  ghost predicate AllAnswered(events: seq<Event>) {
    forall k :: 0 <= k < |events| && events[k].Returned? ==> AnsweredAt(events, k)
  }

  /** Calls are distinct, known and at most 128; results are distinct, and each answers an earlier call. */
  ghost predicate WellPaired(events: seq<Event>) {
    DistinctCalls(events) && DistinctResults(events) && KnownTools(events) && AllAnswered(events) && Proposals(events) <= 128
  }

  function ProposedIds(events: seq<Event>): set<string> {
    if events == [] then {}
    else ProposedIds(events[..|events| - 1]) + if events[|events| - 1].Proposed? then {events[|events| - 1].id} else {}
  }

  function ReturnedIds(events: seq<Event>): set<string> {
    if events == [] then {}
    else ReturnedIds(events[..|events| - 1]) + if events[|events| - 1].Returned? then {events[|events| - 1].id} else {}
  }

  lemma {:induction false} IdsAt(events: seq<Event>)
    ensures forall j :: 0 <= j < |events| && events[j].Proposed? ==> events[j].id in ProposedIds(events)
    ensures forall j :: 0 <= j < |events| && events[j].Returned? ==> events[j].id in ReturnedIds(events)
    ensures forall id :: id in ProposedIds(events) ==> exists j :: 0 <= j < |events| && events[j].Proposed? && events[j].id == id
    ensures forall id :: id in ReturnedIds(events) ==> exists j :: 0 <= j < |events| && events[j].Returned? && events[j].id == id
  {
    if events != [] {
      var front := events[..|events| - 1];
      IdsAt(front);
      assert forall j :: 0 <= j < |front| ==> events[j] == front[j];
    }
  }

  /** What the last event must satisfy. */
  ghost predicate LastOk(events: seq<Event>)
    requires events != []
  {
    var k := |events| - 1;
    var front := events[..k];
    match events[k]
    case Proposed(id, tool, _) => id !in ProposedIds(front) && IsKnown(tool) && Proposals(front) < CALLS
    case Returned(id, _, _) => id !in ReturnedIds(front) && AnsweredAt(events, k)
  }

  lemma CallsUnfold(events: seq<Event>)
    requires events != []
    ensures var front, e := events[..|events| - 1], events[|events| - 1];
            && (DistinctCalls(events) <==> DistinctCalls(front) && (e.Proposed? ==> e.id !in ProposedIds(front)))
            && (KnownTools(events) <==> KnownTools(front) && (e.Proposed? ==> IsKnown(e.tool)))
  {
    IdsAt(events[..|events| - 1]);
    hide ProposedIds, ReturnedIds, IsKnown;
  }

  lemma ResultsUnfold(events: seq<Event>)
    requires events != []
    ensures var front, e := events[..|events| - 1], events[|events| - 1];
            DistinctResults(events) <==> DistinctResults(front) && (e.Returned? ==> e.id !in ReturnedIds(front))
  {
    IdsAt(events[..|events| - 1]);
    hide ProposedIds, ReturnedIds;
  }

  lemma AnsweredSame(events: seq<Event>, k: int)
    requires events != [] && k < |events| - 1
    ensures AnsweredAt(events, k) <==> AnsweredAt(events[..|events| - 1], k)
  {
    hide Judge;
    var front := events[..|events| - 1];
    if AnsweredAt(events, k) {
      var j :| Answers(events, j, k) && JudgedAt(events, j, k);
      assert Answers(front, j, k) && JudgedAt(front, j, k);
    }
    if AnsweredAt(front, k) {
      var j :| Answers(front, j, k) && JudgedAt(front, j, k);
      assert Answers(events, j, k) && JudgedAt(events, j, k);
    }
  }

  lemma AnswersUnfold(events: seq<Event>)
    requires events != []
    ensures AllAnswered(events)
            <==> AllAnswered(events[..|events| - 1])
                 && (events[|events| - 1].Returned? ==> AnsweredAt(events, |events| - 1))
  {
    hide AnsweredAt;
    forall k | 0 <= k < |events| - 1 ensures AnsweredAt(events, k) <==> AnsweredAt(events[..|events| - 1], k) {
      AnsweredSame(events, k);
    }
  }

  lemma WellPairedUnfolds(events: seq<Event>)
    requires events != []
    ensures WellPaired(events) <==> WellPaired(events[..|events| - 1]) && LastOk(events)
  {
    hide DistinctCalls, DistinctResults, KnownTools, AllAnswered, AnsweredAt, ProposedIds, ReturnedIds;
    CallsUnfold(events);
    ResultsUnfold(events);
    AnswersUnfold(events);
  }

  /** The loop's sets and counts, for the calls proposed and the results returned. */
  predicate Tallied(s: State, proposed: set<string>, returned: set<string>, calls: nat, results: nat) {
    && s.seen == proposed && |proposed| == calls
    && s.pending.Keys == proposed - returned && returned <= proposed && |s.pending| + results == calls
    && s.records == calls + results
  }

  /** What the loop's variables hold after a run: the calls seen, those still unanswered, and the records. */
  ghost predicate Linked(s: State, events: seq<Event>) {
    && Tallied(s, ProposedIds(events), ReturnedIds(events), Proposals(events), Results(events))
    && PendingOk(s.pending, events)
  }

  lemma TalliedCall(s: State, proposed: set<string>, returned: set<string>, calls: nat, results: nat, id: string, p: Proposal,
                    more: set<string>)
    requires Tallied(s, proposed, returned, calls, results) && id !in s.seen && more == proposed + {id}
    ensures Tallied(AfterCall(s, id, p), more, returned, calls + 1, results)
  {
    assert id !in proposed && id !in returned;
    UpdateKeys(s.pending, id, p);
    SetsAdd(proposed, returned, id);
  }

  lemma UpdateKeys(m: map<string, Proposal>, id: string, p: Proposal)
    requires id !in m
    ensures m[id := p].Keys == m.Keys + {id} && |m[id := p]| == |m| + 1
  {
    KeysCount(m, m[id := p], id);
  }

  lemma SetsAdd(proposed: set<string>, returned: set<string>, id: string)
    requires id !in proposed && returned <= proposed
    ensures (proposed + {id}) - returned == (proposed - returned) + {id} && |proposed + {id}| == |proposed| + 1
  {
  }

  lemma TalliedResult(s: State, t: State, proposed: set<string>, returned: set<string>, calls: nat, results: nat, id: string)
    requires Tallied(s, proposed, returned, calls, results) && id in s.pending
    requires t.pending == s.pending - {id} && t.seen == s.seen && t.records == s.records + 1
    ensures Tallied(t, proposed, returned + {id}, calls, results + 1)
  {
    RemoveKeys(s.pending, id);
    SetsRemove(proposed, returned, id);
  }

  lemma RemoveKeys(m: map<string, Proposal>, id: string)
    requires id in m
    ensures (m - {id}).Keys == m.Keys - {id} && |m - {id}| + 1 == |m|
  {
    assert m.Keys == (m - {id}).Keys + {id};
    KeysCount(m - {id}, m, id);
  }

  lemma SetsRemove(proposed: set<string>, returned: set<string>, id: string)
    requires id in proposed && returned <= proposed
    ensures proposed - (returned + {id}) == (proposed - returned) - {id} && returned + {id} <= proposed
  {
  }

  /** Each pending call was proposed so. */
  ghost predicate PendingOk(pending: map<string, Proposal>, events: seq<Event>) {
    forall id :: id in pending ==> WasProposed(events, id, pending[id])
  }

  ghost predicate WasProposed(events: seq<Event>, id: string, p: Proposal) {
    exists j :: ProposedAt(events, j, id, p)
  }

  predicate ProposedAt(events: seq<Event>, j: int, id: string, p: Proposal) {
    0 <= j < |events| && events[j] == Proposed(id, p.tool, p.arguments)
  }

  /** A run that the loop accepts is well paired, and one that is well paired is accepted. */
  lemma {:induction false} AcceptedIffWellPaired(events: seq<Event>)
    ensures Run(events).Some? <==> WellPaired(events)
    ensures Run(events).Some? ==> Linked(Run(events).value, events)
  {
    hide Step, LastOk, Linked, WellPaired;
    if events == [] {
      NothingYet();
    } else {
      var front := events[..|events| - 1];
      AcceptedIffWellPaired(front);
      WellPairedUnfolds(events);
      if Run(front).Some? {
        StepIffLastOk(Run(front).value, events);
      }
    }
  }

  lemma NothingYet()
    ensures WellPaired([]) && Linked(Start(), [])
  {
  }

  lemma StepIffLastOk(s: State, events: seq<Event>)
    requires events != [] && WellPaired(events[..|events| - 1]) && Linked(s, events[..|events| - 1])
    ensures Step(s, events[|events| - 1]).Some? <==> LastOk(events)
    ensures Step(s, events[|events| - 1]).Some? ==> Linked(Step(s, events[|events| - 1]).value, events)
  {
    if events[|events| - 1].Proposed? {
      ProposedStep(s, events);
    } else {
      ReturnedStep(s, events);
    }
  }

  lemma ProposedStays(events: seq<Event>, id: string, p: Proposal)
    requires events != [] && WasProposed(events[..|events| - 1], id, p)
    ensures WasProposed(events, id, p)
  {
    var j :| ProposedAt(events[..|events| - 1], j, id, p);
    assert ProposedAt(events, j, id, p);
  }

  lemma PendingStays(pending: map<string, Proposal>, more: map<string, Proposal>, events: seq<Event>)
    requires events != [] && PendingOk(pending, events[..|events| - 1])
    requires forall id :: id in more && id in pending ==> more[id] == pending[id]
    requires forall id :: id in more && id !in pending ==> WasProposed(events, id, more[id])
    ensures PendingOk(more, events)
  {
    hide WasProposed;
    forall id | id in more ensures WasProposed(events, id, more[id]) {
      if id in pending {
        ProposedStays(events, id, pending[id]);
      }
    }
  }

  lemma Unfolds(events: seq<Event>)
    requires events != []
    ensures var front, e := events[..|events| - 1], events[|events| - 1];
            && ProposedIds(events) == (if e.Proposed? then ProposedIds(front) + {e.id} else ProposedIds(front))
            && ReturnedIds(events) == (if e.Returned? then ReturnedIds(front) + {e.id} else ReturnedIds(front))
            && Proposals(events) == Proposals(front) + (if e.Proposed? then 1 else 0)
            && Results(events) == Results(front) + (if e.Returned? then 1 else 0)
  {
  }

  lemma ProposedStep(s: State, events: seq<Event>)
    requires events != [] && events[|events| - 1].Proposed? && Linked(s, events[..|events| - 1])
    ensures Step(s, events[|events| - 1]).Some? <==> LastOk(events)
    ensures Step(s, events[|events| - 1]).Some? ==> Linked(Step(s, events[|events| - 1]).value, events)
  {
    hide PendingOk, WasProposed, IsKnown, ProposedIds, ReturnedIds, Proposals, Results, AnsweredAt;
    if Step(s, events[|events| - 1]).Some? {
      ProposedLinks(s, events);
    }
  }

  lemma ProposedLinks(s: State, events: seq<Event>)
    requires events != [] && events[|events| - 1].Proposed? && Linked(s, events[..|events| - 1])
    requires events[|events| - 1].id !in s.seen
    ensures var e := events[|events| - 1]; Linked(AfterCall(s, e.id, Proposal(e.tool, e.arguments)), events)
  {
    hide Tallied, PendingOk, ProposedIds, ReturnedIds, Proposals, Results, AfterCall;
    CallTallies(s, events);
    CallPends(s, events);
  }

  lemma CallTallies(s: State, events: seq<Event>)
    requires events != [] && events[|events| - 1].Proposed? && Linked(s, events[..|events| - 1])
    requires events[|events| - 1].id !in s.seen
    ensures var e := events[|events| - 1];
            Tallied(AfterCall(s, e.id, Proposal(e.tool, e.arguments)),
                    ProposedIds(events), ReturnedIds(events), Proposals(events), Results(events))
  {
    hide *;
    var front, e := events[..|events| - 1], events[|events| - 1];
    LinkedIsTallied(s, front);
    CallUnfolds(events);
    TalliedCall(s, ProposedIds(front), ReturnedIds(front), Proposals(front), Results(front), e.id, Proposal(e.tool, e.arguments),
                ProposedIds(events));
  }

  lemma LinkedIsTallied(s: State, events: seq<Event>)
    requires Linked(s, events)
    ensures Tallied(s, ProposedIds(events), ReturnedIds(events), Proposals(events), Results(events))
  {
  }

  lemma CallUnfolds(events: seq<Event>)
    requires events != [] && events[|events| - 1].Proposed?
    ensures var front, e := events[..|events| - 1], events[|events| - 1];
            && ProposedIds(events) == ProposedIds(front) + {e.id} && ReturnedIds(events) == ReturnedIds(front)
            && Proposals(events) == Proposals(front) + 1 && Results(events) == Results(front)
  {
    Unfolds(events);
  }

  lemma CallPends(s: State, events: seq<Event>)
    requires events != [] && events[|events| - 1].Proposed? && Linked(s, events[..|events| - 1])
    requires events[|events| - 1].id !in s.seen
    ensures var e := events[|events| - 1]; PendingOk(AfterCall(s, e.id, Proposal(e.tool, e.arguments)).pending, events)
  {
    hide Tallied, PendingOk, WasProposed, ProposedIds, ReturnedIds, Proposals, Results;
    var e := events[|events| - 1];
    LastProposed(events);
    SeenHasPending(s, events[..|events| - 1]);
    PendingAdds(s.pending, events, e.id, Proposal(e.tool, e.arguments));
  }

  lemma PendingAdds(pending: map<string, Proposal>, events: seq<Event>, id: string, p: Proposal)
    requires events != [] && PendingOk(pending, events[..|events| - 1]) && id !in pending && WasProposed(events, id, p)
    ensures PendingOk(pending[id := p], events)
  {
    hide WasProposed;
    PendingStays(pending, pending[id := p], events);
  }

  lemma SeenHasPending(s: State, events: seq<Event>)
    requires Linked(s, events)
    ensures s.pending.Keys <= s.seen
  {
  }

  lemma LastProposed(events: seq<Event>)
    requires events != [] && events[|events| - 1].Proposed?
    ensures var e := events[|events| - 1]; WasProposed(events, e.id, Proposal(e.tool, e.arguments))
  {
    var e := events[|events| - 1];
    assert ProposedAt(events, |events| - 1, e.id, Proposal(e.tool, e.arguments));
  }

  lemma KeysCount(m: map<string, Proposal>, more: map<string, Proposal>, id: string)
    requires more.Keys == m.Keys + {id} && id !in m.Keys
    ensures |more| == |m| + 1
  {
    assert |more| == |more.Keys| && |m| == |m.Keys|;
  }

  lemma ReturnedStep(s: State, events: seq<Event>)
    requires events != [] && events[|events| - 1].Returned?
    requires WellPaired(events[..|events| - 1]) && Linked(s, events[..|events| - 1])
    ensures Step(s, events[|events| - 1]).Some? <==> LastOk(events)
    ensures Step(s, events[|events| - 1]).Some? ==> Linked(Step(s, events[|events| - 1]).value, events)
  {
    hide Judge, WellPaired, PendingOk, WasProposed, AnsweredAt, IsKnown, ProposedIds, ReturnedIds, Proposals, Results, EntryOf;
    var n := |events| - 1;
    var e := events[n];
    Unfolds(events);
    if LastOk(events) {
      ReturnedHasProposal(s, events);
    }
    if Step(s, e).Some? {
      var t := Step(s, e).value;
      PendingAnswers(s, events);
      PendingStays(s.pending, t.pending, events);
      TalliedResult(s, t, ProposedIds(events[..n]), ReturnedIds(events[..n]), Proposals(events[..n]), Results(events[..n]), e.id);
    }
  }

  /** A result that answers a call, nothing having answered it before, finds that call pending. */
  lemma ReturnedHasProposal(s: State, events: seq<Event>)
    requires events != [] && events[|events| - 1].Returned?
    requires WellPaired(events[..|events| - 1]) && Linked(s, events[..|events| - 1]) && LastOk(events)
    ensures Step(s, events[|events| - 1]).Some?
  {
    hide Judge, WellPaired, Linked;
    var n := |events| - 1;
    var front, e := events[..n], events[n];
    var j :| Answers(events, j, n) && JudgedAt(events, j, n);
    assert front[j] == events[j];
    IdsAt(front);
    LinkedKeys(s, front);
    PendingIsThat(s, front, e.id, j);
  }

  lemma LinkedKeys(s: State, events: seq<Event>)
    requires Linked(s, events)
    ensures s.pending.Keys == ProposedIds(events) - ReturnedIds(events)
  {
  }

  lemma PendingAnswers(s: State, events: seq<Event>)
    requires events != [] && events[|events| - 1].Returned? && PendingOk(s.pending, events[..|events| - 1])
    requires Step(s, events[|events| - 1]).Some?
    ensures AnsweredAt(events, |events| - 1)
  {
    hide Judge;
    var n := |events| - 1;
    var e := events[n];
    assert WasProposed(events[..n], e.id, s.pending[e.id]);
    var i :| ProposedAt(events[..n], i, e.id, s.pending[e.id]);
    assert Answers(events, i, n) && JudgedAt(events, i, n);
  }

  /** A pending call is its one proposal. */
  lemma PendingIsThat(s: State, events: seq<Event>, id: string, j: int)
    requires WellPaired(events) && Linked(s, events) && id in s.pending
    requires 0 <= j < |events| && events[j].Proposed? && events[j].id == id
    ensures s.pending[id] == Proposal(events[j].tool, events[j].arguments)
  {
    assert WasProposed(events, id, s.pending[id]);
    var i :| ProposedAt(events, i, id, s.pending[id]);
    assert i == j;
  }

  // ---------- what the counts mean ----------

  function CountTool(events: seq<Event>, tool: string): nat {
    if events == [] then 0
    else CountTool(events[..|events| - 1], tool)
         + if events[|events| - 1].Returned? && events[|events| - 1].tool == tool then 1 else 0
  }

  /** Per tool: the paired results are the tool's results, each an error or a success, and the usable ones successes. */
  lemma {:induction false} ToolsAreAccountedFor(events: seq<Event>, tool: string)
    requires Run(events).Some?
    ensures var s := Run(events).value;
            var e := EntryOf(s, tool);
            && e.paired == CountTool(events, tool) && e.errors + e.successes == e.paired && e.usable <= e.successes
            && (tool in s.tools <==> CountTool(events, tool) > 0)
  {
    hide Judge, IsKnown;
    if events != [] {
      var front, last := events[..|events| - 1], events[|events| - 1];
      ToolsAreAccountedFor(front, tool);
      if last.Returned? {
        VerdictIsExclusive(last.tool, Run(front).value.pending[last.id].arguments, last.value);
      }
    }
  }

  /** The row counts of a tool's results, added up over the run. */
  function RowsOfTool(events: seq<Event>, tool: string): Counts
    requires Run(events).Some?
  {
    if events == [] then NO_ROWS
    else
      var front, last := events[..|events| - 1], events[|events| - 1];
      if last.Returned? && last.tool == tool
      then Plus(RowsOfTool(front, tool), Judge(tool, Run(front).value.pending[last.id].arguments, last.value).value.rows)
      else RowsOfTool(front, tool)
  }

  /**
   Per tool: the row counts are those of the tool's results together; a usable row has no fault, and each
   usable result brought at least one usable row.
   */
  lemma {:induction false} ToolRowsAddUp(events: seq<Event>, tool: string)
    requires Run(events).Some?
    ensures var e := EntryOf(Run(events).value, tool);
            && e.rows == RowsOfTool(events, tool)
            && e.rows.usable + e.rows.errors <= e.rows.rows && e.rows.usable + e.rows.empty <= e.rows.rows
            && e.rows.usable + e.rows.unbound <= e.rows.rows && e.usable <= e.rows.usable
  {
    hide Judge, IsKnown;
    if events != [] {
      var front, last := events[..|events| - 1], events[|events| - 1];
      ToolRowsAddUp(front, tool);
      if last.Returned? && last.tool == tool {
        var a := Run(front).value.pending[last.id].arguments;
        VerdictIsExclusive(tool, a, last.value);
        VerdictRows(tool, a, last.value);
      }
    }
  }

  /** Calls are conserved: those seen are paired or pending, and the records are calls and results. */
  lemma CallsAreConserved(events: seq<Event>)
    requires Run(events).Some?
    ensures var s := Run(events).value;
            && |s.seen| == Proposals(events) == Results(events) + |s.pending|
            && s.records == Proposals(events) + Results(events)
  {
    hide Run, ProposedIds, ReturnedIds, Proposals, Results, PendingOk, WellPaired;
    AcceptedIffWellPaired(events);
  }

  /** Every result is some known tool's, so the tools' paired results add up to all results. */
  lemma {:induction false} ToolsShareTheResults(events: seq<Event>)
    requires Run(events).Some?
    ensures Results(events)
            == CountTool(events, "web_search") + CountTool(events, "web_extract") + CountTool(events, "mcp__vram__vram_status")
               + CountTool(events, "tool_search") + CountTool(events, "tool_describe")
  {
    hide Judge, Step;
    if events != [] {
      var front, e := events[..|events| - 1], events[|events| - 1];
      ToolsShareTheResults(front);
      if e.Returned? {
        ResultToolIsKnown(events);
      }
    }
  }

  lemma ResultToolIsKnown(events: seq<Event>)
    requires events != [] && events[|events| - 1].Returned? && Run(events).Some?
    ensures IsKnown(events[|events| - 1].tool)
  {
    hide Judge, Run, KnownTools;
    AcceptedIffWellPaired(events);
    var n := |events| - 1;
    assert AnsweredAt(events, n);
    var j :| Answers(events, j, n) && JudgedAt(events, j, n);
    KnownAt(events, j);
  }

  lemma KnownAt(events: seq<Event>, j: nat)
    requires KnownTools(events) && j < |events| && events[j].Proposed?
    ensures IsKnown(events[j].tool)
  {
  }

  /** Result `k` is a success for the call it answers. */
  ghost predicate GoodAt(events: seq<Event>, k: int) {
    exists j :: Answers(events, j, k) && ValidAt(events, j, k)
  }

  ghost predicate AllGood(events: seq<Event>) {
    forall k :: 0 <= k < |events| && events[k].Returned? ==> GoodAt(events, k)
  }

  predicate AllSucceeded(tools: map<string, Entry>) {
    forall t :: t in tools ==> tools[t].successes == tools[t].paired
  }

  lemma GoodUnfolds(events: seq<Event>)
    requires events != []
    ensures AllGood(events)
            <==> AllGood(events[..|events| - 1]) && (events[|events| - 1].Returned? ==> GoodAt(events, |events| - 1))
  {
    hide GoodAt;
    forall k | 0 <= k < |events| - 1 ensures GoodAt(events, k) <==> GoodAt(events[..|events| - 1], k) {
      GoodSame(events, k);
    }
  }

  lemma GoodSame(events: seq<Event>, k: int)
    requires events != [] && k < |events| - 1
    ensures GoodAt(events, k) <==> GoodAt(events[..|events| - 1], k)
  {
    hide Judge;
    var front := events[..|events| - 1];
    if GoodAt(events, k) {
      var j :| Answers(events, j, k) && ValidAt(events, j, k);
      assert Answers(front, j, k) && ValidAt(front, j, k);
    }
    if GoodAt(front, k) {
      var j :| Answers(front, j, k) && ValidAt(front, j, k);
      assert Answers(events, j, k) && ValidAt(events, j, k);
    }
  }

  /** The last result is good exactly when the loop's verdict on it is valid. */
  lemma LastGood(s: State, events: seq<Event>)
    requires events != [] && events[|events| - 1].Returned? && WellPaired(events[..|events| - 1]) && Linked(s, events[..|events| - 1])
    requires Step(s, events[|events| - 1]).Some?
    ensures var e := events[|events| - 1];
            GoodAt(events, |events| - 1) <==> Judge(e.tool, s.pending[e.id].arguments, e.value).value.valid
  {
    hide Judge, WellPaired, Tallied;
    var n := |events| - 1;
    var front, e := events[..n], events[n];
    assert WasProposed(front, e.id, s.pending[e.id]);
    var i :| ProposedAt(front, i, e.id, s.pending[e.id]);
    assert Answers(events, i, n);
    if GoodAt(events, n) {
      var j :| Answers(events, j, n) && ValidAt(events, j, n);
      assert front[j] == events[j];
      PendingIsThat(s, front, e.id, j);
    } else {
      assert !ValidAt(events, i, n);
    }
  }

  lemma {:induction false} SucceededIffGood(events: seq<Event>)
    requires Run(events).Some?
    ensures AllSucceeded(Run(events).value.tools) <==> AllGood(events)
  {
    hide Judge, AllGood, GoodAt, WellPaired, Linked, IsKnown;
    if events == [] {
      NothingGood();
    } else {
      var n := |events| - 1;
      var front, e := events[..n], events[n];
      var s := Run(front).value;
      SucceededIffGood(front);
      GoodUnfolds(events);
      AcceptedIffWellPaired(front);
      if e.Returned? {
        LastGood(s, events);
        ToolsAreAccountedFor(front, e.tool);
        OneMore(s, e.tool, Judge(e.tool, s.pending[e.id].arguments, e.value).value);
      }
    }
  }

  lemma NothingGood()
    ensures AllGood([])
  {
  }

  lemma OneMore(s: State, tool: string, v: Verdict)
    requires var e := EntryOf(s, tool); e.errors + e.successes == e.paired
    ensures AllSucceeded(s.tools[tool := Counted(EntryOf(s, tool), v)]) <==> AllSucceeded(s.tools) && v.valid
  {
    var more := s.tools[tool := Counted(EntryOf(s, tool), v)];
    assert forall t :: t in s.tools ==> t in more;
    if AllSucceeded(more) {
      assert more[tool].successes == more[tool].paired;
      forall t | t in s.tools ensures s.tools[t].successes == s.tools[t].paired {
        assert t in more;
      }
    }
  }

  /** `available` is false for a run that was ended before its session existed. */
  datatype Summary = Summary(tools: map<string, Entry>, records: nat, unpaired: nat, pairSuccess: bool, available: bool)

  function Summarize(s: State): Summary {
    Summary(s.tools, s.records, |s.pending|, |s.pending| == 0 && |s.tools| > 0 && AllSucceeded(s.tools), true)
  }

  /** Pair success means: every call was answered, there was a result, and every result was a success. */
  lemma PairSuccess(events: seq<Event>)
    requires Run(events).Some?
    ensures Summarize(Run(events).value).pairSuccess
            <==> Proposals(events) == Results(events) && Results(events) > 0 && AllGood(events)
  {
    hide AllGood, AllSucceeded, Proposals, Results;
    SucceededIffGood(events);
    CallsAreConserved(events);
    ToolsMeanResults(events);
  }

  lemma {:induction false} ToolsMeanResults(events: seq<Event>)
    requires Run(events).Some?
    ensures |Run(events).value.tools| > 0 <==> Results(events) > 0
  {
    hide Judge, IsKnown;
    if events != [] {
      var e := events[|events| - 1];
      ToolsMeanResults(events[..|events| - 1]);
      if e.Returned? {
        assert e.tool in Run(events).value.tools;
        assert |Run(events).value.tools.Keys| > 0;
      }
    }
  }

  // ---------- the loop over the recorded messages ----------

  /** A call as recorded; the fields are None when they do not have their shape. */
  datatype Call = Call(id: Option<string>, tool: Option<string>, arguments: Option<Arguments>)

  datatype Role = Assistant | ToolRole | OtherRole

  datatype Calls = Malformed | List(calls: seq<Call>)

  /** A row as recorded, with the stored lengths of its two texts. */
  datatype Row = Row(role: Role, calls: Option<Calls>, callId: Option<string>, tool: string, content: Option<Value>,
                     contentSize: nat, callsSize: nat)

  /** What the session table says of the run: nothing, one session of the API server, or something else. */
  datatype Session = NoSession | ApiServer | OtherSession

  function CallEvents(calls: seq<Call>): Option<seq<Event>> {
    if calls == [] then Some([])
    else
      var before, c := CallEvents(calls[..|calls| - 1]), calls[|calls| - 1];
      if before.None? || c.id.None? || c.tool.None? || c.arguments.None? then None
      else Some(before.value + [Proposed(c.id.value, c.tool.value, c.arguments.value)])
  }

  /** The events of one row; None when it has not the shape of a message. */
  function RowEvents(r: Row): Option<seq<Event>> {
    var calls :=
      if r.calls.None? then Some([])
      else if r.role != Assistant || r.calls.value.Malformed? || |r.calls.value.calls| > PROPOSALS then None
      else CallEvents(r.calls.value.calls);
    if calls.None? || r.role != ToolRole then calls
    else if r.callId.None? || r.content.None? then None
    else Some(calls.value + [Returned(r.callId.value, r.tool, r.content.value)])
  }

  /** The proposals of a message, when each has its three fields. */
  lemma {:induction false} CallEventsMeans(calls: seq<Call>)
    ensures CallEvents(calls).Some? <==> forall c :: c in calls ==> c.id.Some? && c.tool.Some? && c.arguments.Some?
    ensures CallEvents(calls).Some? ==>
              && |CallEvents(calls).value| == |calls|
              && forall k :: 0 <= k < |calls| ==>
                   calls[k] == Call(Some(CallEvents(calls).value[k].id), Some(CallEvents(calls).value[k].tool),
                                    if CallEvents(calls).value[k].Proposed? then Some(CallEvents(calls).value[k].arguments) else None)
  {
    if calls != [] {
      CallEventsMeans(calls[..|calls| - 1]);
      assert calls == calls[..|calls| - 1] + [calls[|calls| - 1]];
    }
  }

  /**
   A message is in shape exactly if at most 64 complete proposals stand in it, and in the assistant's alone,
   and a tool's message names its call and holds a result; its events are the proposals and that result.
   */
  lemma RowEventsMeans(r: Row)
    ensures RowEvents(r).Some? <==>
              && (r.calls.Some? ==>
                    && r.role == Assistant && r.calls.value.List? && |r.calls.value.calls| <= 64
                    && CallEvents(r.calls.value.calls).Some?)
              && (r.role == ToolRole ==> r.callId.Some? && r.content.Some?)
    ensures RowEvents(r).Some? ==>
              RowEvents(r).value == (if r.calls.Some? then CallEvents(r.calls.value.calls).value
                                     else if r.role == ToolRole then [Returned(r.callId.value, r.tool, r.content.value)] else [])
  {
    hide CallEvents;
  }

  function Flatten(rows: seq<Row>): Option<seq<Event>> {
    if rows == [] then Some([])
    else
      var before, last := Flatten(rows[..|rows| - 1]), RowEvents(rows[|rows| - 1]);
      if before.None? || last.None? then None else Some(before.value + last.value)
  }

  /** The messages are read to the end. */
  predicate Readable(rows: seq<Row>) {
    Flatten(rows).Some? && Run(Flatten(rows).value).Some?
  }

  lemma {:induction false} RunStops(events: seq<Event>, more: seq<Event>)
    requires Run(events).None?
    ensures Run(events + more).None?
    decreases |more|
  {
    if more == [] {
      assert events + more == events;
    } else {
      RunStops(events, more[..|more| - 1]);
      assert (events + more)[..|events + more| - 1] == events + more[..|more| - 1];
    }
  }

  /** A beginning that cannot be read makes the whole unreadable. */
  lemma {:induction false} ReadableBeginning(rows: seq<Row>, i: nat)
    requires i <= |rows| && Readable(rows)
    ensures Readable(rows[..i])
    decreases |rows|
  {
    hide RowEvents;
    if i == |rows| {
      assert rows[..i] == rows;
    } else {
      var front := rows[..|rows| - 1];
      var last := RowEvents(rows[|rows| - 1]).value;
      if Run(Flatten(front).value).None? {
        RunStops(Flatten(front).value, last);
      }
      ReadableBeginning(front, i);
      assert front[..i] == rows[..i];
    }
  }

  const ROWS := 512
  const TEXT_BYTES := 262144
  const TOTAL_BYTES := 2097152

  function TotalSize(rows: seq<Row>): nat {
    if rows == [] then 0
    else TotalSize(rows[..|rows| - 1]) + rows[|rows| - 1].contentSize + rows[|rows| - 1].callsSize
  }

  /** The bounds that are checked before any text is fetched. */
  predicate WithinBounds(rows: seq<Row>) {
    && |rows| <= ROWS && TotalSize(rows) <= TOTAL_BYTES
    && forall r :: r in rows ==> r.contentSize <= TEXT_BYTES && r.callsSize <= TEXT_BYTES
  }

  /** At most 512 messages, of 256 KiB in either text and 2 MiB together. */
  lemma BoundsMean(rows: seq<Row>)
    ensures WithinBounds(rows)
            <==> && |rows| <= 512 && TotalSize(rows) <= 2 * 1024 * 1024
                 && forall k :: 0 <= k < |rows| ==> rows[k].contentSize <= 256 * 1024 && rows[k].callsSize <= 256 * 1024
  {
  }

  /** The inner loop over one message's proposals. */
  method TakeCalls(calls: seq<Call>, ghost done: seq<Event>, pending: map<string, Proposal>, seen: set<string>,
                   tools: map<string, Entry>, records: nat)
    returns (ok: bool, pending': map<string, Proposal>, seen': set<string>, records': nat)
    requires Run(done) == Some(State(pending, seen, tools, records))
    ensures ok <==> CallEvents(calls).Some? && Run(done + CallEvents(calls).value).Some?
    ensures ok ==> Run(done + CallEvents(calls).value) == Some(State(pending', seen', tools, records'))
  {
    hide IsKnown, CallEvents, Run;
    pending', seen', records' := pending, seen, records;
    NoCalls(calls, done);
    for i := 0 to |calls|
      invariant CallEvents(calls[..i]).Some?
      invariant Run(done + CallEvents(calls[..i]).value) == Some(State(pending', seen', tools, records'))
    {
      var c := calls[i];
      CallsGrow(calls, i);
      if c.id.None? || c.tool.None? || c.arguments.None? {
        CallsBeginning(calls, i + 1, done);
        return false, pending', seen', records';
      }
      ghost var before := done + CallEvents(calls[..i]).value;
      ghost var e := Proposed(c.id.value, c.tool.value, c.arguments.value);
      assert done + CallEvents(calls[..i + 1]).value == before + [e];
      RunAppends(before, e);
      if c.id.value in seen' || |seen'| >= CALLS || !IsKnown(c.tool.value) {
        CallsBeginning(calls, i + 1, done);
        return false, pending', seen', records';
      }
      seen' := seen' + {c.id.value};
      pending' := pending'[c.id.value := Proposal(c.tool.value, c.arguments.value)];
      records' := records' + 1;
    }
    assert calls[..|calls|] == calls;
    ok := true;
  }

  lemma NoCalls(calls: seq<Call>, done: seq<Event>)
    ensures CallEvents(calls[..0]) == Some([]) && done + [] == done
  {
  }

  lemma CallsGrow(calls: seq<Call>, i: nat)
    requires i < |calls|
    ensures var before, after, c := CallEvents(calls[..i]), CallEvents(calls[..i + 1]), calls[i];
            after == if before.None? || c.id.None? || c.tool.None? || c.arguments.None? then None
                     else Some(before.value + [Proposed(c.id.value, c.tool.value, c.arguments.value)])
  {
    assert calls[..i + 1][..i] == calls[..i];
  }

  lemma RunAppends(events: seq<Event>, e: Event)
    requires Run(events).Some?
    ensures Run(events + [e]) == Step(Run(events).value, e)
  {
    assert (events + [e])[..|events|] == events;
  }

  /** Proposals that fail somewhere fail as a whole. */
  lemma {:induction false} CallsBeginning(calls: seq<Call>, i: nat, done: seq<Event>)
    requires i <= |calls| && (CallEvents(calls[..i]).Some? ==> Run(done + CallEvents(calls[..i]).value).None?)
    ensures CallEvents(calls).Some? ==> Run(done + CallEvents(calls).value).None?
    decreases |calls|
  {
    if i == |calls| {
      assert calls[..i] == calls;
    } else {
      var front, c := calls[..|calls| - 1], calls[|calls| - 1];
      assert front[..i] == calls[..i];
      CallsBeginning(front, i, done);
      if CallEvents(calls).Some? {
        var last := [Proposed(c.id.value, c.tool.value, c.arguments.value)];
        RunStops(done + CallEvents(front).value, last);
        assert done + CallEvents(calls).value == done + CallEvents(front).value + last;
      }
    }
  }

  /** One row's requests, then its result. */
  method TakeRow(row: Row, ghost done: seq<Event>, pending: map<string, Proposal>, seen: set<string>,
                 tools: map<string, Entry>, records: nat)
    returns (ok: bool, pending': map<string, Proposal>, seen': set<string>, tools': map<string, Entry>, records': nat)
    requires Run(done) == Some(State(pending, seen, tools, records))
    ensures ok <==> RowEvents(row).Some? && Run(done + RowEvents(row).value).Some?
    ensures ok ==> Run(done + RowEvents(row).value) == Some(State(pending', seen', tools', records'))
  {
    hide Judge, CallEvents, Run;
    ok, pending', seen', tools', records' := true, pending, seen, tools, records;
    assert done + [] == done;
    ghost var called: seq<Event> := [];
    if row.calls.Some? {
      if row.role != Assistant || row.calls.value.Malformed? || |row.calls.value.calls| > PROPOSALS {
        ok := false;
        return;
      }
      ok, pending', seen', records' := TakeCalls(row.calls.value.calls, done, pending, seen, tools, records);
      return;
    }
    if row.role != ToolRole {
      return;
    }
    if row.callId.None? || row.content.None? {
      ok := false;
      return;
    }
    ghost var e := Returned(row.callId.value, row.tool, row.content.value);
    assert [] + [e] == [e];
    RunAppends(done, e);
    if row.callId.value !in pending {
      ok := false;
      return;
    }
    var proposal := pending[row.callId.value];
    if row.tool != proposal.tool {
      ok := false;
      return;
    }
    var verdict := JudgeResult(row.tool, proposal.arguments, row.content.value);
    if verdict.None? {
      ok := false;
      return;
    }
    pending' := pending - {row.callId.value};
    var entry := if row.tool in tools then tools[row.tool] else Entry(0, 0, 0, 0, NO_ROWS);
    tools' := tools[row.tool := Counted(entry, verdict.value)];
    records' := records + 1;
  }

  /** The loop over the rows. */
  method ReadRows(rows: seq<Row>) returns (r: Option<State>)
    ensures r.Some? <==> Flatten(rows).Some? && WellPaired(Flatten(rows).value)
    ensures r.Some? ==> Run(Flatten(rows).value) == r
  {
    hide WellPaired, RowEvents, Flatten, Run;
    if Flatten(rows).Some? {
      AcceptedIffWellPaired(Flatten(rows).value);
    }
    var pending: map<string, Proposal>, seen: set<string>, tools: map<string, Entry>, records: nat := map[], {}, map[], 0;
    NothingRead(rows);
    for i := 0 to |rows|
      invariant Flatten(rows[..i]).Some? && Run(Flatten(rows[..i]).value) == Some(State(pending, seen, tools, records))
    {
      RowsGrow(rows, i);
      var ok;
      ok, pending, seen, tools, records := TakeRow(rows[i], Flatten(rows[..i]).value, pending, seen, tools, records);
      if !ok {
        NotReadable(rows, i + 1);
        return None;
      }
    }
    assert rows[..|rows|] == rows;
    return Some(State(pending, seen, tools, records));
  }

  lemma NothingRead(rows: seq<Row>)
    ensures Flatten(rows[..0]) == Some([]) && Run([]) == Some(Start())
  {
  }

  lemma RowsGrow(rows: seq<Row>, i: nat)
    requires i < |rows| && Flatten(rows[..i]).Some?
    ensures var last := RowEvents(rows[i]);
            Flatten(rows[..i + 1]) == if last.None? then None else Some(Flatten(rows[..i]).value + last.value)
  {
    hide RowEvents;
    assert rows[..i + 1][..i] == rows[..i];
  }

  lemma NotReadable(rows: seq<Row>, i: nat)
    requires i <= |rows| && !Readable(rows[..i])
    ensures !Readable(rows)
  {
    hide Readable;
    if Readable(rows) {
      ReadableBeginning(rows, i);
    }
  }

  /**
   `read`, from the session on. The run is witnessed exactly when it was ended before it had a session, or
   its session is the API server's, its messages are within bounds and in shape, its calls and results pair
   up, and none is left unanswered unless the run was cancelled or interrupted.
   */
  method Read(session: Session, rows: seq<Row>, aborted: bool) returns (r: Option<Summary>)
    ensures r.Some?
            <==> || (session == NoSession && aborted)
                 || (session == ApiServer && WithinBounds(rows) && Flatten(rows).Some? && WellPaired(Flatten(rows).value)
                     && (Proposals(Flatten(rows).value) == Results(Flatten(rows).value) || aborted))
    ensures r.Some? && session == NoSession ==> r.value == Summary(map[], 0, 0, false, false)
    ensures r.Some? && session != NoSession ==> Run(Flatten(rows).value).Some? && r.value == Summarize(Run(Flatten(rows).value).value)
  {
    hide WellPaired, Flatten, Proposals, Results, Run, WithinBounds;
    if session == NoSession && aborted {
      return Some(Summary(map[], 0, 0, false, false));
    }
    if session != ApiServer || !WithinBounds(rows) {
      return None;
    }
    var read := ReadRows(rows);
    if read.None? {
      return None;
    }
    CallsAreConserved(Flatten(rows).value);
    var s := read.value;
    if |s.pending| > 0 && !aborted {
      return None;
    }
    return Some(Summary(s.tools, s.records, |s.pending|, |s.pending| == 0 && |s.tools| > 0 && AllSucceeded(s.tools), true));
  }
}
