/**
 The locked transport gate in front of the web provider. Threads open search and extract scopes and send
 requests; each locked section is one step, so every interleaving of steps is a run.
 */
module TransportGate {
  import opened Bytes

  const ENDPOINT := "https://mcp.exa.ai/mcp"
  const WITNESS_LIMIT := 1000000000
  const RESPONSES_KEPT := 16
  const DENIALS_KEPT := 8
  const SEARCHES := 5
  const EXTRACTS := 3
  const METADATA_READS := 2

  datatype Lane = Search | Extract | Metadata

  datatype Tool = WebSearch | WebFetch | OtherTool

  datatype Arguments = Query(query: string, numResults: int) | Urls(urls: seq<string>) | OtherArguments

  /** `wellFormed` stands for the fixed JSON-RPC fields. */
  datatype Body = NoBody | Undecodable | Call(wellFormed: bool, tool: Tool, arguments: Arguments)

  datatype Request = Request(url: string, verb: string, body: Body, timeoutIs30: bool, retries: int)

  datatype Profile = Profile(proof: bool, frozen: bool, metadataUrls: set<string>)

  datatype SearchScope = SearchScope(id: nat, query: string, limit: int, spent: bool)

  datatype ExtractScope = ExtractScope(id: nat, urls: set<string>, spent: set<string>)

  /** A send: forwarded and in flight, raising, or about to leave through `finally`. */
  datatype Activity = Idle | InFlight | Raising(forwarded: bool) | Leaving(forwarded: bool)

  datatype Thread = Thread(search: Option<SearchScope>, extract: Option<ExtractScope>, activity: Activity)

  datatype Witness = Witness(searches: nat, extracts: nat, metadata: nat, responses: nat, responsesTruncated: bool,
                             responseCount: nat, denials: nat, denialsTruncated: bool, denialCount: nat)

  /** What the statements speak of: results of successful searches, and requests let through. */
  datatype Happening = Found(urls: set<string>) | Forwarded(lane: Lane, scope: nat, url: string)

  datatype State = State(threads: seq<Thread>, counts: Witness, returned: set<string>, allowed: set<string>,
                         scopes: nat, history: seq<Happening>, left: nat, denied: nat)

  datatype Step =
    | BeginSearch(t: nat, query: string, limit: int)
    | EndSearch(t: nat, success: bool, urls: set<string>)
    | BeginExtract(t: nat, urls: set<string>)
    | EndExtract(t: nat)
    | Send(t: nat, request: Request)
    | Answer(t: nat, accepted: bool)
    | Deny(t: nat)
    | Leave(t: nat)

  function Initial(threads: nat): State {
    State(seq(threads, _ => Thread(None, None, Idle)), Witness(0, 0, 0, 0, false, 0, 0, false, 0), {}, {}, 0, [], 0, 0)
  }

  function Saturated(n: nat): nat {
    if n <= WITNESS_LIMIT then n else WITNESS_LIMIT
  }

  /** `min(_MAX_WITNESS_COUNT, n + 1)`. */
  function Increment(n: nat): nat {
    if n + 1 <= WITNESS_LIMIT then n + 1 else WITNESS_LIMIT
  }

  // ---------- the gate's decision ----------

  predicate MetadataOk(p: Profile, w: Witness, r: Request) {
    && r.url in p.metadataUrls && r.verb == "GET" && r.body == NoBody
    && !(p.proof && w.metadata >= METADATA_READS) && r.retries == 0
  }

  predicate BindingOk(r: Request) {
    r.body.Call? && r.verb == "POST" && r.url == ENDPOINT && r.body.wellFormed && r.timeoutIs30
  }

  predicate SearchOk(p: Profile, w: Witness, t: Thread, r: Request) {
    && BindingOk(r) && r.body.tool == WebSearch
    && t.search.Some? && !t.search.value.spent && !(p.proof && w.searches >= SEARCHES)
    && r.body.arguments == Query(t.search.value.query, t.search.value.limit)
  }

  predicate ExtractOk(p: Profile, w: Witness, allowed: set<string>, t: Thread, r: Request) {
    && BindingOk(r) && r.body.tool == WebFetch
    && t.extract.Some? && !(p.proof && w.extracts >= EXTRACTS)
    && r.body.arguments.Urls? && |r.body.arguments.urls| == 1
    && var url := r.body.arguments.urls[0];
       (p.proof ==> url in allowed) && url in t.extract.value.urls && url !in t.extract.value.spent
  }

  /** The lane a request is let through on; None when the gate refuses it. */
  function Admitted(p: Profile, w: Witness, allowed: set<string>, t: Thread, r: Request): Option<Lane> {
    if p.frozen && r.url !in p.metadataUrls then None
    else if t.search.None? && t.extract.None? && r.url != ENDPOINT then if MetadataOk(p, w, r) then Some(Metadata) else None
    else if SearchOk(p, w, t, r) then Some(Search)
    else if ExtractOk(p, w, allowed, t, r) then Some(Extract)
    else None
  }

  /** What is let through is what the open scope asked for, on its own lane; metadata passes outside scopes only. */
  lemma LaneIsBound(p: Profile, w: Witness, allowed: set<string>, t: Thread, r: Request)
    ensures var lane := Admitted(p, w, allowed, t, r);
            && (lane == Some(Metadata) ==> t.search.None? && t.extract.None? && r.url in p.metadataUrls && r.url != ENDPOINT
                                           && r.verb == "GET" && r.body == NoBody)
            && (lane == Some(Search) ==> t.search.Some? && r.url == ENDPOINT && r.verb == "POST" && r.body.Call?
                                         && r.body.arguments == Query(t.search.value.query, t.search.value.limit))
            && (lane == Some(Extract) ==> t.extract.Some? && r.url == ENDPOINT && r.verb == "POST" && r.body.Call?
                                          && exists url :: url in t.extract.value.urls && r.body.arguments == Urls([url]))
            && (p.frozen && ENDPOINT !in p.metadataUrls ==> lane.None? || lane == Some(Metadata))
  {
    if Admitted(p, w, allowed, t, r) == Some(Extract) {
      var urls := r.body.arguments.urls;
      assert urls == [urls[0]];
    }
  }

  /** A tool call as the endpoint expects it. */
  predicate IsToolCall(r: Request, tool: Tool) {
    r.url == "https://mcp.exa.ai/mcp" && r.verb == "POST" && r.timeoutIs30 && r.body.Call? && r.body.wellFormed && r.body.tool == tool
  }

  /**
   Exactly what each lane lets through: metadata reads outside scopes, the open scope's own search while it is
   unspent, and each of the open scope's URLs once; in proof mode within two reads, five searches and three
   extracts, and only URLs that are allowed.
   */
  lemma AdmittedExactly(p: Profile, w: Witness, allowed: set<string>, t: Thread, r: Request)
    ensures var lane := Admitted(p, w, allowed, t, r);
            && (lane == Some(Metadata) <==>
                  && t.search.None? && t.extract.None? && r.url in p.metadataUrls && r.url != "https://mcp.exa.ai/mcp"
                  && r.verb == "GET" && r.body.NoBody? && r.retries == 0 && (p.proof ==> w.metadata < 2))
            && (lane == Some(Search) <==>
                  && (p.frozen ==> r.url in p.metadataUrls) && IsToolCall(r, WebSearch)
                  && t.search.Some? && !t.search.value.spent && (p.proof ==> w.searches < 5)
                  && r.body.arguments == Query(t.search.value.query, t.search.value.limit))
            && (lane == Some(Extract) <==>
                  && (p.frozen ==> r.url in p.metadataUrls) && IsToolCall(r, WebFetch)
                  && t.extract.Some? && (p.proof ==> w.extracts < 3)
                  && exists url :: r.body.arguments == Urls([url]) && url in t.extract.value.urls - t.extract.value.spent
                                   && (p.proof ==> url in allowed))
  {
    if r.body.Call? && r.body.arguments.Urls? && |r.body.arguments.urls| == 1 {
      assert r.body.arguments.urls == [r.body.arguments.urls[0]];
    }
  }

  // ---------- the steps ----------

  predicate Enabled(p: Profile, s: State, step: Step) {
    step.t < |s.threads|
    && var a := s.threads[step.t].activity;
       match step
       case BeginSearch(_, _, _) => a == Idle
       case EndSearch(_, _, _) => a == Idle
       case BeginExtract(_, _) => a == Idle && !p.frozen
       case EndExtract(_) => a == Idle
       case Send(_, _) => a == Idle
       case Answer(_, _) => a == InFlight
       case Deny(_) => a.Raising?
       case Leave(_) => a.Leaving?
  }

  function With(s: State, t: nat, thread: Thread): State
    requires t < |s.threads|
  {
    s.(threads := s.threads[t := thread])
  }

  /** What a forwarded request adds to the history. */
  function Entry(s: State, t: nat, r: Request, lane: Lane): Happening
    requires t < |s.threads|
    requires lane == Search ==> s.threads[t].search.Some?
    requires lane == Extract ==> s.threads[t].extract.Some? && r.body.Call? && r.body.arguments.Urls? && r.body.arguments.urls != []
  {
    match lane
    case Metadata => Forwarded(Metadata, 0, r.url)
    case Search => Forwarded(Search, s.threads[t].search.value.id, r.url)
    case Extract => Forwarded(Extract, s.threads[t].extract.value.id, r.body.arguments.urls[0])
  }

  /** The locked section that lets a request through and counts it. */
  function Forward(s: State, t: nat, r: Request, lane: Lane): State
    requires t < |s.threads|
    requires lane == Search ==> s.threads[t].search.Some?
    requires lane == Extract ==> s.threads[t].extract.Some? && r.body.Call? && r.body.arguments.Urls? && r.body.arguments.urls != []
  {
    var thread, w := s.threads[t].(activity := InFlight), s.counts;
    var n := s.(history := s.history + [Entry(s, t, r, lane)]);
    match lane
    case Metadata => With(n, t, thread).(counts := w.(metadata := Increment(w.metadata)))
    case Search =>
      With(n, t, thread.(search := Some(thread.search.value.(spent := true)))).(counts := w.(searches := Increment(w.searches)))
    case Extract =>
      var scope := thread.extract.value;
      With(n, t, thread.(extract := Some(scope.(spent := scope.spent + {r.body.arguments.urls[0]}))))
        .(counts := w.(extracts := Increment(w.extracts)))
  }

  function Apply(p: Profile, s: State, step: Step): State
    requires Enabled(p, s, step)
  {
    var thread := s.threads[step.t];
    match step
    case BeginSearch(t, query, limit) =>
      With(s, t, thread.(search := Some(SearchScope(s.scopes, query, if limit < 1 then 1 else limit, false))))
        .(scopes := s.scopes + 1)
    case EndSearch(t, success, urls) =>
      var ended := With(s, t, thread.(search := None));
      if success && p.proof then ended.(returned := s.returned + urls, history := s.history + [Found(urls)]) else ended
    case BeginExtract(t, urls) =>
      With(s, t, thread.(extract := Some(ExtractScope(s.scopes, urls, {}))))
        .(scopes := s.scopes + 1, allowed := if p.proof then s.allowed + (urls * s.returned) else s.allowed)
    case EndExtract(t) => With(s, t, thread.(extract := None))
    case Send(t, request) =>
      var lane := Admitted(p, s.counts, s.allowed, thread, request);
      if lane.None? then With(s, t, thread.(activity := Raising(false))) else Forward(s, t, request, lane.value)
    case Answer(t, accepted) => With(s, t, thread.(activity := if accepted then Leaving(true) else Raising(true)))
    case Deny(t) =>
      var w := s.counts;
      With(s, t, thread.(activity := Leaving(thread.activity.forwarded)))
        .(denied := s.denied + 1,
          counts := w.(denialCount := if w.denialCount + 1 <= DENIALS_KEPT + 1 then w.denialCount + 1 else DENIALS_KEPT + 1,
                        denials := if w.denials < DENIALS_KEPT then w.denials + 1 else w.denials,
                        denialsTruncated := w.denialsTruncated || w.denials >= DENIALS_KEPT))
    case Leave(t) =>
      var w := s.counts;
      var idle := With(s, t, thread.(activity := Idle));
      if !thread.activity.forwarded then idle
      else idle.(left := s.left + 1,
                 counts := w.(responses := if w.responses < RESPONSES_KEPT then w.responses + 1 else w.responses,
                               responsesTruncated := w.responsesTruncated || w.responses >= RESPONSES_KEPT,
                               responseCount := Increment(w.responseCount)))
  }

  function After(p: Profile, threads: nat, steps: seq<Step>): Option<State> {
    if steps == [] then Some(Initial(threads))
    else
      var before := After(p, threads, steps[..|steps| - 1]);
      var last := steps[|steps| - 1];
      if before.Some? && Enabled(p, before.value, last) then Some(Apply(p, before.value, last)) else None
  }

  // ---------- counting ----------

  function Count(h: seq<Happening>, lane: Lane): nat {
    if h == [] then 0
    else Count(h[..|h| - 1], lane) + if h[|h| - 1].Forwarded? && h[|h| - 1].lane == lane then 1 else 0
  }

  /** All requests let through. */
  function Total(s: State): nat {
    Count(s.history, Search) + Count(s.history, Extract) + Count(s.history, Metadata)
  }

  /** A forwarded request that has not left yet. */
  predicate Pending(t: Thread) {
    t.activity == InFlight || ((t.activity.Raising? || t.activity.Leaving?) && t.activity.forwarded)
  }

  function PendingCount(threads: seq<Thread>): nat {
    if threads == [] then 0 else PendingCount(threads[..|threads| - 1]) + if Pending(threads[|threads| - 1]) then 1 else 0
  }

  lemma {:induction false} PendingUpdate(threads: seq<Thread>, t: nat, thread: Thread)
    requires t < |threads|
    ensures PendingCount(threads[t := thread])
            == PendingCount(threads) - (if Pending(threads[t]) then 1 else 0) + (if Pending(thread) then 1 else 0)
  {
    var n := |threads| - 1;
    if t == n {
      assert threads[t := thread][..n] == threads[..n];
    } else {
      PendingUpdate(threads[..n], t, thread);
      assert threads[t := thread][..n] == threads[..n][t := thread];
    }
  }

  lemma {:induction false} NonePending(threads: seq<Thread>)
    requires forall t :: 0 <= t < |threads| ==> threads[t].activity == Idle
    ensures PendingCount(threads) == 0
  {
    if threads != [] {
      NonePending(threads[..|threads| - 1]);
    }
  }

  // ---------- the invariant ----------

  /** Each lane's count is that of the requests forwarded on it, and in proof mode within its cap. */
  predicate LanesOk(p: Profile, s: State) {
    var w := s.counts;
    && w.searches == Saturated(Count(s.history, Search)) && w.extracts == Saturated(Count(s.history, Extract))
    && w.metadata == Saturated(Count(s.history, Metadata))
    && (p.proof ==> w.searches <= SEARCHES && w.extracts <= EXTRACTS && w.metadata <= METADATA_READS)
  }

  /** The witness counts what left and what was denied; what was forwarded has left or is pending. */
  predicate LeftOk(s: State) {
    var w := s.counts;
    && Total(s) == s.left + PendingCount(s.threads)
    && w.responseCount == Saturated(s.left)
    && w.responses == (if s.left <= RESPONSES_KEPT then s.left else RESPONSES_KEPT)
    && (w.responsesTruncated <==> s.left > RESPONSES_KEPT)
    && w.denials == (if s.denied <= DENIALS_KEPT then s.denied else DENIALS_KEPT)
    && w.denialCount == (if s.denied <= DENIALS_KEPT + 1 then s.denied else DENIALS_KEPT + 1)
    && (w.denialsTruncated <==> s.denied > DENIALS_KEPT)
  }

  predicate WitnessOk(p: Profile, s: State) {
    LanesOk(p, s) && LeftOk(s)
  }

  /** The search scopes in which a request was forwarded. */
  function SpentSearches(h: seq<Happening>): set<nat> {
    if h == [] then {}
    else SpentSearches(h[..|h| - 1])
         + if h[|h| - 1].Forwarded? && h[|h| - 1].lane == Search then {h[|h| - 1].scope} else {}
  }

  /** The extract scopes and URLs that were forwarded. */
  function SpentExtracts(h: seq<Happening>): set<(nat, string)> {
    if h == [] then {}
    else SpentExtracts(h[..|h| - 1])
         + if h[|h| - 1].Forwarded? && h[|h| - 1].lane == Extract then {(h[|h| - 1].scope, h[|h| - 1].url)} else {}
  }

  /** The URLs found by the searches of a history. */
  function FoundIn(h: seq<Happening>): set<string> {
    if h == [] then {} else FoundIn(h[..|h| - 1]) + if h[|h| - 1].Found? then h[|h| - 1].urls else {}
  }

  /** One request per search scope, one per URL and extract scope, and in proof mode only URLs found before. */
  predicate Disciplined(p: Profile, h: seq<Happening>) {
    h == []
    || (var front, last := h[..|h| - 1], h[|h| - 1];
        && Disciplined(p, front)
        && (last.Forwarded? && last.lane == Search ==> last.scope !in SpentSearches(front))
        && (last.Forwarded? && last.lane == Extract ==> (last.scope, last.url) !in SpentExtracts(front))
        && (p.proof && last.Forwarded? && last.lane == Extract ==> last.url in FoundIn(front)))
  }

  /** Scopes are numbered apart. */
  predicate ScopesOk(s: State) {
    && (forall t :: 0 <= t < |s.threads| && s.threads[t].search.Some? ==> s.threads[t].search.value.id < s.scopes)
    && (forall t :: 0 <= t < |s.threads| && s.threads[t].extract.Some? ==> s.threads[t].extract.value.id < s.scopes)
    && (forall t, u :: 0 <= t < u < |s.threads| && s.threads[t].search.Some? && s.threads[u].search.Some? ==>
          s.threads[t].search.value.id != s.threads[u].search.value.id)
    && (forall t, u :: 0 <= t < u < |s.threads| && s.threads[t].extract.Some? && s.threads[u].extract.Some? ==>
          s.threads[t].extract.value.id != s.threads[u].extract.value.id)
  }

  /** What was forwarded in an open scope is marked spent there, and no later scope is spent. */
  ghost predicate SpentOk(s: State) {
    && (forall n :: n in SpentSearches(s.history) ==> n < s.scopes)
    && (forall x :: x in SpentExtracts(s.history) ==> x.0 < s.scopes)
    && (forall t :: 0 <= t < |s.threads| && s.threads[t].search.Some? && s.threads[t].search.value.id in SpentSearches(s.history) ==>
          s.threads[t].search.value.spent)
    && (forall t, url :: 0 <= t < |s.threads| && s.threads[t].extract.Some?
                         && (s.threads[t].extract.value.id, url) in SpentExtracts(s.history) ==>
          url in s.threads[t].extract.value.spent)
  }

  predicate SourcesOk(p: Profile, s: State) {
    p.proof ==> s.allowed <= s.returned && s.returned == FoundIn(s.history)
  }

  ghost predicate Inv(p: Profile, s: State) {
    WitnessOk(p, s) && ScopesOk(s) && SpentOk(s) && SourcesOk(p, s) && Disciplined(p, s.history)
  }

  // ---------- every step keeps the invariant ----------

  lemma StartHolds(p: Profile, threads: nat)
    ensures Inv(p, Initial(threads))
  {
    var s := Initial(threads);
    NonePending(s.threads);
    assert ScopesOk(s);
    assert SpentSearches([]) == {} && SpentExtracts([]) == {} && FoundIn([]) == {};
    assert Count([], Search) == Count([], Extract) == Count([], Metadata) == 0;
    hide PendingCount, Count, SpentSearches, SpentExtracts, FoundIn;
  }

  /** A thread that changes only its activity, forwarding nothing. */
  lemma ActivityKeeps(p: Profile, s: State, t: nat, thread: Thread, n: State)
    requires Inv(p, s) && t < |s.threads| && thread.search == s.threads[t].search && thread.extract == s.threads[t].extract
    requires n.threads == s.threads[t := thread] && n.scopes == s.scopes && n.history == s.history
    requires n.returned == s.returned && n.allowed == s.allowed
    requires WitnessOk(p, n)
    ensures Inv(p, n)
  {
    hide WitnessOk, SpentSearches, SpentExtracts, Disciplined, FoundIn;
  }

  /** An answer moves no count; a denial and a departure move theirs. */
  lemma LeaveCounts(p: Profile, s: State, step: Step)
    requires WitnessOk(p, s) && Enabled(p, s, step) && (step.Answer? || step.Deny? || step.Leave?)
    ensures LanesOk(p, Apply(p, s, step)) && LeftOk(Apply(p, s, step))
  {
    hide Count, PendingCount;
    var n := Apply(p, s, step);
    PendingUpdate(s.threads, step.t, n.threads[step.t]);
    assert LanesOk(p, n) by { hide LeftOk; }
    hide LanesOk;
    assert Total(n) == Total(s);
    hide Total;
  }

  lemma LeaveKeeps(p: Profile, s: State, step: Step)
    requires Inv(p, s) && Enabled(p, s, step) && (step.Answer? || step.Deny? || step.Leave?)
    ensures Inv(p, Apply(p, s, step))
  {
    var n := Apply(p, s, step);
    hide LanesOk, LeftOk, ScopesOk, SpentOk, SourcesOk, Disciplined;
    LeaveCounts(p, s, step);
    hide Inv, WitnessOk;
    ActivityKeeps(p, s, step.t, n.threads[step.t], n);
  }

  lemma RefusalKeeps(p: Profile, s: State, t: nat)
    requires Inv(p, s) && t < |s.threads| && s.threads[t].activity == Idle
    ensures Inv(p, With(s, t, s.threads[t].(activity := Raising(false))))
  {
    var thread := s.threads[t].(activity := Raising(false));
    var n := With(s, t, thread);
    PendingUpdate(s.threads, t, thread);
    assert WitnessOk(p, n) by { hide ScopesOk, SpentOk, SourcesOk, Disciplined, Count, PendingCount; }
    hide Inv, WitnessOk;
    ActivityKeeps(p, s, t, thread, n);
  }

  /** A scope a thread may have after a step: none, its old one, or a new one. */
  predicate SearchFits(s: State, n: State, was: Option<SearchScope>, now: Option<SearchScope>) {
    now.None? || (now.value.id == s.scopes < n.scopes) || (was.Some? && now.value.id == was.value.id)
  }

  predicate ExtractFits(s: State, n: State, was: Option<ExtractScope>, now: Option<ExtractScope>) {
    now.None? || (now.value.id == s.scopes < n.scopes) || (was.Some? && now.value.id == was.value.id)
  }

  lemma ScopesStayApart(s: State, n: State, t: nat)
    requires ScopesOk(s) && t < |s.threads| == |n.threads| && s.scopes <= n.scopes
    requires n.threads == s.threads[t := n.threads[t]]
    requires SearchFits(s, n, s.threads[t].search, n.threads[t].search)
    requires ExtractFits(s, n, s.threads[t].extract, n.threads[t].extract)
    ensures ScopesOk(n)
  {
    forall u | 0 <= u < |n.threads| && u != t ensures n.threads[u] == s.threads[u] {
    }
  }

  /** Only the thread that forwarded a request spends something, and it marks it. */
  lemma SpentStaysMarked(s: State, n: State, t: nat)
    requires ScopesOk(s) && SpentOk(s) && t < |s.threads| == |n.threads| && s.scopes <= n.scopes
    requires n.threads == s.threads[t := n.threads[t]]
    requires forall x :: x in SpentSearches(n.history) && x !in SpentSearches(s.history) ==>
               s.threads[t].search.Some? && x == s.threads[t].search.value.id
    requires forall x :: x in SpentExtracts(n.history) && x !in SpentExtracts(s.history) ==>
               s.threads[t].extract.Some? && x.0 == s.threads[t].extract.value.id
    requires n.threads[t].search.Some? && n.threads[t].search.value.id in SpentSearches(n.history) ==> n.threads[t].search.value.spent
    requires n.threads[t].extract.Some? ==>
               forall url :: (n.threads[t].extract.value.id, url) in SpentExtracts(n.history) ==> url in n.threads[t].extract.value.spent
    ensures SpentOk(n)
  {
    hide SpentSearches, SpentExtracts;
    forall u | 0 <= u < |n.threads| && n.threads[u].search.Some? && n.threads[u].search.value.id in SpentSearches(n.history)
      ensures n.threads[u].search.value.spent
    {
      if u != t {
        assert n.threads[u] == s.threads[u];
      }
    }
    forall u, url | 0 <= u < |n.threads| && n.threads[u].extract.Some? && (n.threads[u].extract.value.id, url) in SpentExtracts(n.history)
      ensures url in n.threads[u].extract.value.spent
    {
      if u != t {
        assert n.threads[u] == s.threads[u];
      }
    }
  }

  /** A step that opens or closes a scope of one thread and forwards nothing. */
  ghost predicate ScopeStep(s: State, n: State, t: nat) {
    && t < |s.threads| == |n.threads| && n.threads == s.threads[t := n.threads[t]]
    && n.threads[t].activity == s.threads[t].activity
    && n.counts == s.counts && n.left == s.left && n.denied == s.denied && s.scopes <= n.scopes
    && (n.history == s.history || exists urls :: n.history == s.history + [Found(urls)])
    && SearchFits(s, n, s.threads[t].search, n.threads[t].search) && ExtractFits(s, n, s.threads[t].extract, n.threads[t].extract)
    && (n.threads[t].search == s.threads[t].search || n.threads[t].search.None? || n.threads[t].search.value.id == s.scopes)
    && (n.threads[t].extract == s.threads[t].extract || n.threads[t].extract.None? || n.threads[t].extract.value.id == s.scopes)
  }

  /** A search that ends changes the history for the found URLs only. */
  lemma FoundOnly(p: Profile, h: seq<Happening>, g: seq<Happening>)
    requires g == h || exists urls :: g == h + [Found(urls)]
    ensures forall lane :: Count(g, lane) == Count(h, lane)
    ensures SpentSearches(g) == SpentSearches(h) && SpentExtracts(g) == SpentExtracts(h)
    ensures Disciplined(p, g) <==> Disciplined(p, h)
  {
    if g != h {
      var urls :| g == h + [Found(urls)];
      HistoryGrows(p, h, Found(urls));
    }
  }

  lemma ScopeStepCounts(p: Profile, s: State, n: State, t: nat)
    requires WitnessOk(p, s) && ScopeStep(s, n, t)
    ensures WitnessOk(p, n)
  {
    FoundOnly(p, s.history, n.history);
    PendingUpdate(s.threads, t, n.threads[t]);
    hide ScopeStep, Count, PendingCount;
    assert n.counts == s.counts && n.left == s.left && n.denied == s.denied by { ScopeStepFields(s, n, t); }
  }

  lemma ScopeStepFields(s: State, n: State, t: nat)
    requires ScopeStep(s, n, t)
    ensures n.counts == s.counts && n.left == s.left && n.denied == s.denied
    ensures t < |s.threads| == |n.threads| && Pending(n.threads[t]) == Pending(s.threads[t]) && n.threads == s.threads[t := n.threads[t]]
  {
  }

  lemma ScopeStepSpends(p: Profile, s: State, n: State, t: nat)
    requires ScopesOk(s) && SpentOk(s) && ScopeStep(s, n, t)
    ensures ScopesOk(n) && SpentOk(n)
  {
    FoundOnly(p, s.history, n.history);
    hide ScopesOk, SpentSearches, SpentExtracts;
    ScopesStayApart(s, n, t);
    FreshScopeUnspent(s);
    SpentStaysMarked(s, n, t);
  }

  lemma ScopeStepKeeps(p: Profile, s: State, n: State, t: nat)
    requires Inv(p, s) && ScopeStep(s, n, t) && SourcesOk(p, n)
    ensures Inv(p, n)
  {
    hide WitnessOk, ScopesOk, SpentOk, SourcesOk;
    ScopeStepCounts(p, s, n, t);
    ScopeStepSpends(p, s, n, t);
    FoundOnly(p, s.history, n.history);
  }

  /** Opening and closing scopes. */
  lemma ScopeKeeps(p: Profile, s: State, step: Step)
    requires Inv(p, s) && Enabled(p, s, step) && (step.BeginSearch? || step.BeginExtract? || step.EndExtract?)
    ensures Inv(p, Apply(p, s, step))
  {
    var n := Apply(p, s, step);
    assert SourcesOk(p, n) by { hide WitnessOk, ScopesOk, SpentOk, FoundIn, Disciplined; }
    hide Inv, SourcesOk;
    ScopeStepKeeps(p, s, n, step.t);
  }

  lemma FreshScopeUnspent(s: State)
    requires SpentOk(s)
    ensures s.scopes !in SpentSearches(s.history) && forall url :: (s.scopes, url) !in SpentExtracts(s.history)
  {
    hide SpentSearches, SpentExtracts;
  }

  lemma EndSearchKeeps(p: Profile, s: State, step: Step)
    requires Inv(p, s) && Enabled(p, s, step) && step.EndSearch?
    ensures Inv(p, Apply(p, s, step))
  {
    var n := Apply(p, s, step);
    assert SourcesOk(p, n) by {
      HistoryGrows(p, s.history, Found(step.urls));
      hide WitnessOk, ScopesOk, SpentOk, FoundIn, Disciplined;
    }
    hide Inv, SourcesOk;
    assert ScopeStep(s, n, step.t);
    ScopeStepKeeps(p, s, n, step.t);
  }

  lemma HistoryGrows(p: Profile, h: seq<Happening>, x: Happening)
    ensures var g := h + [x];
            && (forall lane :: Count(g, lane) == Count(h, lane) + if x.Forwarded? && x.lane == lane then 1 else 0)
            && SpentSearches(g) == SpentSearches(h) + (if x.Forwarded? && x.lane == Search then {x.scope} else {})
            && SpentExtracts(g) == SpentExtracts(h) + (if x.Forwarded? && x.lane == Extract then {(x.scope, x.url)} else {})
            && FoundIn(g) == FoundIn(h) + (if x.Found? then x.urls else {})
            && (Disciplined(p, g) <==>
                  && Disciplined(p, h)
                  && (x.Forwarded? && x.lane == Search ==> x.scope !in SpentSearches(h))
                  && (x.Forwarded? && x.lane == Extract ==> (x.scope, x.url) !in SpentExtracts(h))
                  && (p.proof && x.Forwarded? && x.lane == Extract ==> x.url in FoundIn(h)))
  {
    assert (h + [x])[..|h|] == h;
  }

  /** What the gate checked of an admitted request. */
  lemma AdmittedFacts(p: Profile, w: Witness, allowed: set<string>, t: Thread, r: Request, lane: Lane)
    requires Admitted(p, w, allowed, t, r) == Some(lane)
    ensures lane == Metadata ==> !(p.proof && w.metadata >= METADATA_READS)
    ensures lane == Search ==> t.search.Some? && !t.search.value.spent && !(p.proof && w.searches >= SEARCHES)
    ensures lane == Extract ==>
              && t.extract.Some? && !(p.proof && w.extracts >= EXTRACTS)
              && r.body.Call? && r.body.arguments.Urls? && r.body.arguments.urls != []
              && r.body.arguments.urls[0] !in t.extract.value.spent && (p.proof ==> r.body.arguments.urls[0] in allowed)
  {
  }

  lemma ForwardCounts(p: Profile, s: State, t: nat, r: Request, lane: Lane)
    requires WitnessOk(p, s) && t < |s.threads| && s.threads[t].activity == Idle
    requires Admitted(p, s.counts, s.allowed, s.threads[t], r) == Some(lane)
    ensures WitnessOk(p, Forward(s, t, r, lane))
  {
    AdmittedFacts(p, s.counts, s.allowed, s.threads[t], r, lane);
    hide SpentSearches, SpentExtracts, Disciplined, FoundIn, Count, PendingCount, Admitted, LanesOk, LeftOk;
    var n := Forward(s, t, r, lane);
    CountGrows(s.history, Entry(s, t, r, lane));
    LaneCounted(p, s, n, lane);
    PendingUpdate(s.threads, t, n.threads[t]);
    OneMorePending(s, n);
  }

  lemma CountGrows(h: seq<Happening>, x: Happening)
    ensures forall lane :: Count(h + [x], lane) == Count(h, lane) + if x.Forwarded? && x.lane == lane then 1 else 0
  {
    assert (h + [x])[..|h|] == h;
  }

  lemma LaneCounted(p: Profile, s: State, n: State, lane: Lane)
    requires LanesOk(p, s)
    requires forall l :: Count(n.history, l) == Count(s.history, l) + if l == lane then 1 else 0
    requires lane == Metadata ==> n.counts == s.counts.(metadata := Increment(s.counts.metadata))
                                  && !(p.proof && s.counts.metadata >= METADATA_READS)
    requires lane == Search ==> n.counts == s.counts.(searches := Increment(s.counts.searches))
                                && !(p.proof && s.counts.searches >= SEARCHES)
    requires lane == Extract ==> n.counts == s.counts.(extracts := Increment(s.counts.extracts))
                                 && !(p.proof && s.counts.extracts >= EXTRACTS)
    ensures LanesOk(p, n)
  {
    hide Count;
  }

  lemma OneMorePending(s: State, n: State)
    requires LeftOk(s) && n.left == s.left && n.denied == s.denied
    requires n.counts == s.counts.(searches := n.counts.searches, extracts := n.counts.extracts, metadata := n.counts.metadata)
    requires Total(n) == Total(s) + 1 && PendingCount(n.threads) == PendingCount(s.threads) + 1
    ensures LeftOk(n)
  {
    hide Total, PendingCount;
  }

  lemma ForwardScopes(p: Profile, s: State, t: nat, r: Request, lane: Lane)
    requires ScopesOk(s) && SpentOk(s) && t < |s.threads|
    requires Admitted(p, s.counts, s.allowed, s.threads[t], r) == Some(lane)
    ensures ScopesOk(Forward(s, t, r, lane)) && SpentOk(Forward(s, t, r, lane))
  {
    AdmittedFacts(p, s.counts, s.allowed, s.threads[t], r, lane);
    hide ScopesOk, SpentSearches, SpentExtracts, Disciplined, FoundIn, Count, Admitted;
    var n := Forward(s, t, r, lane);
    HistoryGrows(p, s.history, Entry(s, t, r, lane));
    ScopesStayApart(s, n, t);
    SpentStaysMarked(s, n, t);
  }

  lemma ForwardDisciplined(p: Profile, s: State, t: nat, r: Request, lane: Lane)
    requires Inv(p, s) && t < |s.threads|
    requires Admitted(p, s.counts, s.allowed, s.threads[t], r) == Some(lane)
    ensures Disciplined(p, Forward(s, t, r, lane).history) && SourcesOk(p, Forward(s, t, r, lane))
  {
    AdmittedFacts(p, s.counts, s.allowed, s.threads[t], r, lane);
    hide WitnessOk, ScopesOk, SpentSearches, SpentExtracts, Disciplined, FoundIn, Count, Admitted;
    HistoryGrows(p, s.history, Entry(s, t, r, lane));
    UnspentIsNew(s, t);
  }

  lemma UnspentIsNew(s: State, t: nat)
    requires SpentOk(s) && t < |s.threads|
    ensures s.threads[t].search.Some? && !s.threads[t].search.value.spent ==>
              s.threads[t].search.value.id !in SpentSearches(s.history)
    ensures s.threads[t].extract.Some? ==>
              forall url :: url !in s.threads[t].extract.value.spent ==>
                (s.threads[t].extract.value.id, url) !in SpentExtracts(s.history)
  {
    hide SpentSearches, SpentExtracts;
  }

  lemma ForwardKeeps(p: Profile, s: State, t: nat, r: Request, lane: Lane)
    requires Inv(p, s) && t < |s.threads| && s.threads[t].activity == Idle
    requires Admitted(p, s.counts, s.allowed, s.threads[t], r) == Some(lane)
    ensures Inv(p, Forward(s, t, r, lane))
  {
    hide WitnessOk, ScopesOk, SpentOk, SourcesOk, Disciplined;
    ForwardCounts(p, s, t, r, lane);
    ForwardScopes(p, s, t, r, lane);
    ForwardDisciplined(p, s, t, r, lane);
  }

  lemma StepKeeps(p: Profile, s: State, step: Step)
    requires Inv(p, s) && Enabled(p, s, step)
    ensures Inv(p, Apply(p, s, step))
  {
    hide Inv, Admitted, Forward;
    match step
    case BeginSearch(_, _, _) => ScopeKeeps(p, s, step);
    case EndSearch(_, _, _) => EndSearchKeeps(p, s, step);
    case BeginExtract(_, _) => ScopeKeeps(p, s, step);
    case EndExtract(_) => ScopeKeeps(p, s, step);
    case Send(t, r) =>
      var lane := Admitted(p, s.counts, s.allowed, s.threads[t], r);
      if lane.None? {
        RefusalKeeps(p, s, t);
      } else {
        ForwardKeeps(p, s, t, r, lane.value);
      }
    case Answer(_, _) => LeaveKeeps(p, s, step);
    case Deny(_) => LeaveKeeps(p, s, step);
    case Leave(_) => LeaveKeeps(p, s, step);
  }

  lemma {:induction false} Reachable(p: Profile, threads: nat, steps: seq<Step>)
    requires After(p, threads, steps).Some?
    ensures Inv(p, After(p, threads, steps).value)
  {
    hide Inv, Enabled, Apply;
    if steps == [] {
      StartHolds(p, threads);
    } else {
      Reachable(p, threads, steps[..|steps| - 1]);
      StepKeeps(p, After(p, threads, steps[..|steps| - 1]).value, steps[|steps| - 1]);
    }
  }

  // ---------- what every interleaving guarantees ----------

  /**
   Over any interleaving: a search scope lets at most one request through, an extract scope each URL at most
   once, and in proof mode every forwarded extract URL was returned by an earlier successful search.
   */
  lemma ForwardedOnce(p: Profile, threads: nat, steps: seq<Step>)
    requires After(p, threads, steps).Some?
    ensures var h := After(p, threads, steps).value.history;
            && (forall j, k :: 0 <= j < k < |h| && h[j].Forwarded? && h[k].Forwarded? && h[j].lane == h[k].lane == Search ==>
                  h[j].scope != h[k].scope)
            && (forall j, k :: 0 <= j < k < |h| && h[j].Forwarded? && h[k].Forwarded? && h[j].lane == h[k].lane == Extract ==>
                  h[j].scope != h[k].scope || h[j].url != h[k].url)
            && (p.proof ==> forall k :: 0 <= k < |h| && h[k].Forwarded? && h[k].lane == Extract ==> WasFound(h, k, h[k].url))
  {
    hide After, Disciplined;
    Reachable(p, threads, steps);
    var h := After(p, threads, steps).value.history;
    forall k | 0 <= k < |h| ensures
        && (p.proof && h[k].Forwarded? && h[k].lane == Extract ==> WasFound(h, k, h[k].url))
        && forall j :: 0 <= j < k && h[j].Forwarded? && h[k].Forwarded? && h[j].lane == h[k].lane ==>
             (h[k].lane == Search ==> h[j].scope != h[k].scope)
             && (h[k].lane == Extract ==> h[j].scope != h[k].scope || h[j].url != h[k].url)
    {
      DisciplineAt(p, h, k);
      forall j | 0 <= j < k { SpentAt(h, k, j); }
    }
  }

  /** A search before place `k` returned the URL. */
  predicate WasFound(h: seq<Happening>, k: nat, url: string)
    requires k <= |h|
  {
    exists j :: 0 <= j < k && h[j].Found? && url in h[j].urls
  }

  lemma {:induction false} DisciplineAt(p: Profile, h: seq<Happening>, k: nat)
    requires Disciplined(p, h) && k < |h|
    ensures h[k].Forwarded? && h[k].lane == Search ==> h[k].scope !in SpentSearches(h[..k])
    ensures h[k].Forwarded? && h[k].lane == Extract ==> (h[k].scope, h[k].url) !in SpentExtracts(h[..k])
    ensures p.proof && h[k].Forwarded? && h[k].lane == Extract ==> WasFound(h, k, h[k].url)
    decreases |h|
  {
    hide SpentSearches, SpentExtracts, FoundIn;
    var front := h[..|h| - 1];
    if k < |h| - 1 {
      DisciplineAt(p, front, k);
      assert front[..k] == h[..k];
      if p.proof && h[k].Forwarded? && h[k].lane == Extract {
        var j :| 0 <= j < k && front[j].Found? && h[k].url in front[j].urls;
        assert h[j] == front[j];
      }
    } else if p.proof && h[k].Forwarded? && h[k].lane == Extract {
      var j := FoundAt(front, h[k].url);
      assert h[j] == front[j];
    }
  }

  lemma {:induction false} FoundAt(h: seq<Happening>, url: string) returns (j: nat)
    requires url in FoundIn(h)
    ensures j < |h| && h[j].Found? && url in h[j].urls
  {
    if h[|h| - 1].Found? && url in h[|h| - 1].urls {
      j := |h| - 1;
    } else {
      j := FoundAt(h[..|h| - 1], url);
    }
  }

  lemma {:induction false} SpentAt(h: seq<Happening>, k: nat, j: nat)
    requires j < k <= |h|
    ensures h[j].Forwarded? && h[j].lane == Search ==> h[j].scope in SpentSearches(h[..k])
    ensures h[j].Forwarded? && h[j].lane == Extract ==> (h[j].scope, h[j].url) in SpentExtracts(h[..k])
  {
    var front := h[..k];
    assert front[..k - 1] == h[..k - 1] && front[k - 1] == h[k - 1];
    if j < k - 1 {
      SpentAt(h, k - 1, j);
    }
  }

  /** In proof mode no interleaving lets more than five searches, three extracts and two metadata reads through. */
  lemma ProofCaps(p: Profile, threads: nat, steps: seq<Step>)
    requires After(p, threads, steps).Some? && p.proof
    ensures var s := After(p, threads, steps).value;
            Count(s.history, Search) <= 5 && Count(s.history, Extract) <= 3 && Count(s.history, Metadata) <= 2
  {
    hide After, Disciplined, Count, PendingCount, ScopesOk, SpentOk, SourcesOk;
    Reachable(p, threads, steps);
  }

  /**
   When every thread is idle, the response count equals the search, extract and metadata counts together,
   exactly if nothing saturated or only one lane was ever used.
   */
  lemma QuiescentCounts(p: Profile, threads: nat, steps: seq<Step>)
    requires After(p, threads, steps).Some?
    requires forall t :: 0 <= t < |After(p, threads, steps).value.threads| ==> After(p, threads, steps).value.threads[t].activity == Idle
    ensures var s := After(p, threads, steps).value;
            var lanes := (if Count(s.history, Search) > 0 then 1 else 0) + (if Count(s.history, Extract) > 0 then 1 else 0)
                         + (if Count(s.history, Metadata) > 0 then 1 else 0);
            s.counts.responseCount == s.counts.searches + s.counts.extracts + s.counts.metadata
            <==> Total(s) <= 1000000000 || lanes == 1
  {
    hide After, Disciplined, Count, PendingCount, ScopesOk, SpentOk, SourcesOk;
    Reachable(p, threads, steps);
    NonePending(After(p, threads, steps).value.threads);
  }

  /** At most so many. */
  function Capped(n: nat, limit: nat): nat {
    if n <= limit then n else limit
  }

  /**
   What the witness shows: its counts, up to a thousand million, the first sixteen responses and the first
   eight denials, and whether it left some out.
   */
  lemma WitnessShows(p: Profile, threads: nat, steps: seq<Step>)
    requires After(p, threads, steps).Some?
    ensures var s := After(p, threads, steps).value;
            var w := s.counts;
            && w.searches == Capped(Count(s.history, Search), 1000000000) && w.extracts == Capped(Count(s.history, Extract), 1000000000)
            && w.metadata == Capped(Count(s.history, Metadata), 1000000000) && w.responseCount == Capped(s.left, 1000000000)
            && w.responses == Capped(s.left, 16) && (w.responsesTruncated <==> w.responses < s.left)
            && w.denials == Capped(s.denied, 8) && w.denialCount == Capped(s.denied, 9)
            && (w.denialsTruncated <==> w.denials < s.denied) && s.left <= Total(s)
  {
    hide After, Disciplined, Count, PendingCount, ScopesOk, SpentOk, SourcesOk;
    Reachable(p, threads, steps);
  }

  // ---------- what the steps alone tell ----------

  /** Requests refused by the gate and answers that were not accepted. */
  function Refusals(p: Profile, threads: nat, steps: seq<Step>): nat {
    if steps == [] then 0
    else
      var front, last := steps[..|steps| - 1], steps[|steps| - 1];
      Refusals(p, threads, front) + if After(p, threads, front).Some? && Refuses(p, After(p, threads, front).value, last) then 1 else 0
  }

  predicate Refuses(p: Profile, s: State, step: Step) {
    match step
    case Send(t, r) => t < |s.threads| && Admitted(p, s.counts, s.allowed, s.threads[t], r).None?
    case Answer(_, accepted) => !accepted
    case _ => false
  }

  function RaisingCount(threads: seq<Thread>): nat {
    if threads == [] then 0 else RaisingCount(threads[..|threads| - 1]) + if threads[|threads| - 1].activity.Raising? then 1 else 0
  }

  lemma {:induction false} RaisingUpdate(threads: seq<Thread>, t: nat, thread: Thread)
    requires t < |threads|
    ensures RaisingCount(threads[t := thread])
            == RaisingCount(threads) - (if threads[t].activity.Raising? then 1 else 0) + (if thread.activity.Raising? then 1 else 0)
  {
    var n := |threads| - 1;
    if t == n {
      assert threads[t := thread][..n] == threads[..n];
    } else {
      RaisingUpdate(threads[..n], t, thread);
      assert threads[t := thread][..n] == threads[..n][t := thread];
    }
  }

  lemma {:induction false} NoneRaising(threads: seq<Thread>)
    requires forall t :: 0 <= t < |threads| ==> threads[t].activity == Idle
    ensures RaisingCount(threads) == 0
  {
    if threads != [] {
      NoneRaising(threads[..|threads| - 1]);
    }
  }

  /** Over any interleaving each refused or rejected request is denied once: those refused are denied already or about to be. */
  lemma {:induction false} RefusalsAreDenied(p: Profile, threads: nat, steps: seq<Step>)
    requires After(p, threads, steps).Some?
    ensures var s := After(p, threads, steps).value;
            Refusals(p, threads, steps) == s.denied + RaisingCount(s.threads)
  {
    hide Admitted, Forward, Apply, Enabled, Refuses;
    if steps == [] {
      NoneRaising(Initial(threads).threads);
    } else {
      var front, last := steps[..|steps| - 1], steps[|steps| - 1];
      RefusalsAreDenied(p, threads, front);
      StepDenies(p, After(p, threads, front).value, last);
    }
  }

  lemma StepDenies(p: Profile, s: State, step: Step)
    requires Enabled(p, s, step)
    ensures var n := Apply(p, s, step);
            n.denied + RaisingCount(n.threads) == s.denied + RaisingCount(s.threads) + if Refuses(p, s, step) then 1 else 0
  {
    hide Admitted, RaisingCount, Entry;
    var n := Apply(p, s, step);
    if step.Send? && Admitted(p, s.counts, s.allowed, s.threads[step.t], step.request).Some? {
      AdmittedFacts(p, s.counts, s.allowed, s.threads[step.t], step.request,
                    Admitted(p, s.counts, s.allowed, s.threads[step.t], step.request).value);
    }
    RaisingUpdate(s.threads, step.t, n.threads[step.t]);
  }

  /** The search that a thread has open, as it was begun; a limit below one counts as one. */
  function Searching(steps: seq<Step>, t: nat): Option<(string, int)> {
    if steps == [] then None
    else
      match steps[|steps| - 1]
      case BeginSearch(u, query, limit) =>
        if u == t then Some((query, if limit > 1 then limit else 1)) else Searching(steps[..|steps| - 1], t)
      case EndSearch(u, _, _) => if u == t then None else Searching(steps[..|steps| - 1], t)
      case _ => Searching(steps[..|steps| - 1], t)
  }

  function Extracting(steps: seq<Step>, t: nat): Option<set<string>> {
    if steps == [] then None
    else
      match steps[|steps| - 1]
      case BeginExtract(u, urls) => if u == t then Some(urls) else Extracting(steps[..|steps| - 1], t)
      case EndExtract(u) => if u == t then None else Extracting(steps[..|steps| - 1], t)
      case _ => Extracting(steps[..|steps| - 1], t)
  }

  /** The URLs that successful searches brought. */
  function FoundBy(steps: seq<Step>): set<string> {
    if steps == [] then {}
    else
      var last := steps[|steps| - 1];
      FoundBy(steps[..|steps| - 1]) + if last.EndSearch? && last.success then last.urls else {}
  }

  /** The URLs that an extract was begun for, of those found before it. */
  function AllowedBy(steps: seq<Step>): set<string> {
    if steps == [] then {}
    else
      var front, last := steps[..|steps| - 1], steps[|steps| - 1];
      AllowedBy(front) + if last.BeginExtract? then last.urls * FoundBy(front) else {}
  }

  /** The thread's scopes are these. */
  predicate OpenAs(thread: Thread, search: Option<(string, int)>, extract: Option<set<string>>) {
    && search == (if thread.search.Some? then Some((thread.search.value.query, thread.search.value.limit)) else None)
    && extract == (if thread.extract.Some? then Some(thread.extract.value.urls) else None)
  }

  /** Over any interleaving a thread has open what it began last and has not ended. */
  lemma {:induction false} ScopesAreOpened(p: Profile, threads: nat, steps: seq<Step>, t: nat)
    requires After(p, threads, steps).Some? && t < threads
    ensures var s := After(p, threads, steps).value;
            |s.threads| == threads && OpenAs(s.threads[t], Searching(steps, t), Extracting(steps, t))
  {
    hide Apply, Enabled, OpenAs;
    if steps == [] {
      assert OpenAs(Thread(None, None, Idle), None, None) by { NothingOpen(); }
    } else {
      ScopesAreOpened(p, threads, steps[..|steps| - 1], t);
      StepOpens(p, After(p, threads, steps[..|steps| - 1]).value, steps, t);
    }
  }

  lemma NothingOpen()
    ensures OpenAs(Thread(None, None, Idle), None, None)
  {
  }

  lemma StepOpens(p: Profile, s: State, steps: seq<Step>, t: nat)
    requires steps != [] && Enabled(p, s, steps[|steps| - 1]) && t < |s.threads|
    requires OpenAs(s.threads[t], Searching(steps[..|steps| - 1], t), Extracting(steps[..|steps| - 1], t))
    ensures var n := Apply(p, s, steps[|steps| - 1]);
            |n.threads| == |s.threads| && OpenAs(n.threads[t], Searching(steps, t), Extracting(steps, t))
  {
    hide Admitted;
    var step := steps[|steps| - 1];
    if step.Send? && Admitted(p, s.counts, s.allowed, s.threads[step.t], step.request).Some? {
      AdmittedFacts(p, s.counts, s.allowed, s.threads[step.t], step.request,
                    Admitted(p, s.counts, s.allowed, s.threads[step.t], step.request).value);
    }
  }

  /** In proof mode the allowed URLs are those an extract was begun for after a successful search had brought them. */
  lemma {:induction false} AllowedAreFound(p: Profile, threads: nat, steps: seq<Step>)
    requires After(p, threads, steps).Some? && p.proof
    ensures var s := After(p, threads, steps).value;
            s.returned == FoundBy(steps) && s.allowed == AllowedBy(steps)
  {
    hide Apply, Enabled;
    if steps != [] {
      AllowedAreFound(p, threads, steps[..|steps| - 1]);
      StepAllows(p, After(p, threads, steps[..|steps| - 1]).value, steps[|steps| - 1]);
    }
  }

  lemma StepAllows(p: Profile, s: State, step: Step)
    requires Enabled(p, s, step) && p.proof
    ensures var n := Apply(p, s, step);
            && n.returned == s.returned + (if step.EndSearch? && step.success then step.urls else {})
            && n.allowed == s.allowed + (if step.BeginExtract? then step.urls * s.returned else {})
  {
    hide Admitted;
    if step.Send? && Admitted(p, s.counts, s.allowed, s.threads[step.t], step.request).Some? {
      AdmittedFacts(p, s.counts, s.allowed, s.threads[step.t], step.request,
                    Admitted(p, s.counts, s.allowed, s.threads[step.t], step.request).value);
    }
  }

  // ---------- the locked section ----------

  /** The witness and the allowed URLs that all threads share. */
  class Gate {
    var counts: Witness
    var allowed: set<string>

    constructor ()
      ensures counts == Initial(0).counts && allowed == {}
    {
      counts, allowed := Witness(0, 0, 0, 0, false, 0, 0, false, 0), {};
    }

    /** One thread's scopes through the locked section of `send`: the checks in order, then marking and counting. */
    method Admit(p: Profile, search: Option<SearchScope>, extract: Option<ExtractScope>, r: Request)
      returns (lane: Option<Lane>, search': Option<SearchScope>, extract': Option<ExtractScope>)
      modifies `counts
      ensures lane == Admitted(p, old(counts), allowed, Thread(search, extract, Idle), r)
      ensures lane.None? ==> counts == old(counts) && search' == search && extract' == extract
      ensures lane.Some? ==>
                var s := State([Thread(search, extract, Idle)], old(counts), {}, allowed, 0, [], 0, 0);
                var n := Forward(s, 0, r, lane.value);
                n.counts == counts && n.threads[0] == Thread(search', extract', InFlight)
    {
      lane, search', extract' := None, search, extract;
      if p.frozen && r.url !in p.metadataUrls {
        return;
      }
      if search.None? && extract.None? && r.url != ENDPOINT {
        if r.url !in p.metadataUrls || r.verb != "GET" || r.body != NoBody || (p.proof && counts.metadata >= METADATA_READS) {
          return;
        }
        if r.retries != 0 {
          return;
        }
        counts := counts.(metadata := Increment(counts.metadata));
        lane := Some(Metadata);
        return;
      }
      if !r.body.Call? || r.verb != "POST" || r.url != ENDPOINT || !r.body.wellFormed || !r.timeoutIs30 {
        return;
      }
      if r.body.tool == WebSearch {
        if search.None? || search.value.spent || (p.proof && counts.searches >= SEARCHES)
           || r.body.arguments != Query(search.value.query, search.value.limit) {
          return;
        }
        search' := Some(search.value.(spent := true));
        counts := counts.(searches := Increment(counts.searches));
        lane := Some(Search);
      } else if r.body.tool == WebFetch {
        if extract.None? || (p.proof && counts.extracts >= EXTRACTS) || !r.body.arguments.Urls? || |r.body.arguments.urls| != 1 {
          return;
        }
        var url := r.body.arguments.urls[0];
        if (p.proof && url !in allowed) || url !in extract.value.urls || url in extract.value.spent {
          return;
        }
        extract' := Some(extract.value.(spent := extract.value.spent + {url}));
        counts := counts.(extracts := Increment(counts.extracts));
        lane := Some(Extract);
      }
    }
  }
}
