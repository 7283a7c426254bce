/** The body of a Git tree object: printing and parsing are inverse to each other. */
module GitTree {
  import opened Bytes

  type Oid = bytes

  const SPACE: byte := 32
  const NUL: byte := 0

  datatype Entry = Entry(mode: bytes, name: bytes, oid: Oid)

  predicate WellFormed(e: Entry) {
    SPACE !in e.mode && NUL !in e.mode && NUL !in e.name && |e.oid| == 20
  }

  function PrintEntry(e: Entry): bytes {
    e.mode + [SPACE] + e.name + [NUL] + e.oid
  }

  function Print(es: seq<Entry>): bytes {
    if es == [] then [] else PrintEntry(es[0]) + Print(es[1..])
  }

  datatype Step = Step(entry: Entry, next: nat)

  /** One round of the parsing loop: the entry at `position` and where the next one starts. */
  function Next(data: bytes, position: nat): (r: Option<Step>)
    ensures r.Some? ==> position < r.value.next <= |data| && WellFormed(r.value.entry)
    ensures r.Some? ==> data[position..r.value.next] == PrintEntry(r.value.entry)
  {
    var space, nul := Find(data, SPACE, position), Find(data, NUL, position);
    if space.None? || nul.None? || nul.value < space.value || nul.value + 21 > |data| then None
    else
      var e := Entry(data[position..space.value], data[space.value + 1..nul.value], data[nul.value + 1..nul.value + 21]);
      assert data[position..nul.value + 21] == e.mode + [SPACE] + e.name + [NUL] + e.oid;
      assert forall i :: 0 <= i < |e.mode| ==> e.mode[i] == data[position + i];
      assert forall i :: 0 <= i < |e.name| ==> e.name[i] == data[space.value + 1 + i];
      Some(Step(e, nul.value + 21))
  }

  /** All entries from `position` on, or None when the loop refuses the body as malformed. */
  function ParseFrom(data: bytes, position: nat): Option<seq<Entry>>
    decreases |data| - position
  {
    if position >= |data| then Some([])
    else
      var step := Next(data, position);
      if step.None? then None
      else
        Prepend([step.value.entry], ParseFrom(data, step.value.next))
  }

  function Prepend(es: seq<Entry>, rest: Option<seq<Entry>>): Option<seq<Entry>> {
    if rest.None? then None else Some(es + rest.value)
  }

  function Parse(data: bytes): Option<seq<Entry>> {
    ParseFrom(data, 0)
  }

  /** The loop of `_walk_tree` over one body, without the work it does per entry. */
  method ParseLoop(data: bytes) returns (entries: Option<seq<Entry>>)
    ensures entries == Parse(data)
  {
    hide Next;
    var position, es := 0, [];
    assert Prepend(es, ParseFrom(data, 0)) == Parse(data) by {
      if Parse(data).Some? { assert [] + Parse(data).value == Parse(data).value; }
    }
    while position < |data|
      invariant 0 <= position <= |data|
      invariant Parse(data) == Prepend(es, ParseFrom(data, position))
      decreases |data| - position
    {
      var step := Next(data, position);
      if step.None? {
        return None;
      }
      ghost var rest := ParseFrom(data, step.value.next);
      assert rest.Some? ==> es + ([step.value.entry] + rest.value) == es + [step.value.entry] + rest.value;
      es := es + [step.value.entry];
      position := step.value.next;
    }
    // The source's last check, `position != len(data)`, cannot fire.
    assert position == |data|;
    assert es + [] == es;
    return Some(es);
  }

  predicate AllWellFormed(es: seq<Entry>) {
    forall i :: 0 <= i < |es| ==> WellFormed(es[i])
  }

  /** `data` carries the print of `e` at `p`. */
  predicate At(data: bytes, p: nat, e: Entry) {
    && p + |PrintEntry(e)| <= |data|
    && data[p..p + |PrintEntry(e)|] == PrintEntry(e)
  }

  lemma NextAt(data: bytes, p: nat, e: Entry)
    requires WellFormed(e) && At(data, p, e)
    ensures Next(data, p) == Some(Step(e, p + |PrintEntry(e)|))
  {
    hide Find, WellFormed, PrintEntry;
    var printed := PrintEntry(e);
    var space, nul := |e.mode|, |e.mode| + 1 + |e.name|;
    PrintedParts(e);
    FindAt(data, p, space, SPACE, printed);
    FindAt(data, p, nul, NUL, printed);
    SubSlice(data, p, printed, 0, space);
    SubSlice(data, p, printed, space + 1, nul);
    SubSlice(data, p, printed, nul + 1, nul + 21);
    assert printed[nul + 1..nul + 21] == printed[nul + 1..];
  }

  lemma SubSlice(data: bytes, p: nat, part: bytes, i: nat, j: nat)
    requires p + |part| <= |data| && data[p..p + |part|] == part && i <= j <= |part|
    ensures data[p + i..p + j] == part[i..j]
  {
    forall k | 0 <= k < j - i ensures data[p + i..p + j][k] == part[i..j][k] {
      assert part[i + k] == data[p..p + |part|][i + k];
    }
  }

  lemma FindAt(data: bytes, p: nat, k: nat, b: byte, part: bytes)
    requires p + |part| <= |data| && data[p..p + |part|] == part
    requires k < |part| && part[k] == b && forall i :: 0 <= i < k ==> part[i] != b
    ensures Find(data, b, p) == Some(p + k)
  {
    assert data[p + k] == data[p..p + |part|][k];
    assert forall i :: p <= i < p + k ==> data[i] == data[p..p + |part|][i - p];
  }

  lemma PrintedParts(e: Entry)
    requires WellFormed(e)
    ensures var printed, space, nul := PrintEntry(e), |e.mode|, |e.mode| + 1 + |e.name|;
            && |printed| == nul + 21
            && printed[..space] == e.mode && printed[space] == SPACE
            && printed[space + 1..nul] == e.name && printed[nul] == NUL
            && printed[nul + 1..] == e.oid
            && (forall i :: 0 <= i < space ==> printed[i] != SPACE)
            && (forall i :: 0 <= i < nul ==> printed[i] != NUL)
  {
    var printed, space, nul := PrintEntry(e), |e.mode|, |e.mode| + 1 + |e.name|;
    assert printed[space + 1..nul] == e.name;
    forall i | 0 <= i < nul ensures printed[i] != NUL {
      if i > space { assert printed[i] == e.name[i - space - 1]; }
    }
  }

  lemma {:induction false} ParsePrintedFrom(front: bytes, es: seq<Entry>)
    requires AllWellFormed(es)
    ensures ParseFrom(front + Print(es), |front|) == Some(es)
    decreases |es|
  {
    var data := front + Print(es);
    if es != [] {
      var e := es[0];
      hide Next, PrintEntry, WellFormed;
      assert data == front + PrintEntry(e) + Print(es[1..]);
      Middle(front, PrintEntry(e), Print(es[1..]));
      NextAt(data, |front|, e);
      ParsePrintedFrom(front + PrintEntry(e), es[1..]);
      assert [e] + es[1..] == es;
    }
  }

  lemma {:induction false} ParsedIsPrinted(data: bytes, position: nat)
    requires position <= |data| && ParseFrom(data, position).Some?
    ensures AllWellFormed(ParseFrom(data, position).value)
    ensures Print(ParseFrom(data, position).value) == data[position..]
    decreases |data| - position
  {
    if position < |data| {
      hide Next, WellFormed, PrintEntry, AllWellFormed, Print;
      var step := Next(data, position).value;
      ParsedIsPrinted(data, step.next);
      PrintCons(step.entry, ParseFrom(data, step.next).value);
      Rejoin(data, position, step.next);
    }
  }

  lemma PrintCons(e: Entry, rest: seq<Entry>)
    ensures Print([e] + rest) == PrintEntry(e) + Print(rest)
    ensures AllWellFormed([e] + rest) <==> WellFormed(e) && AllWellFormed(rest)
  {
    hide WellFormed, PrintEntry;
    assert ([e] + rest)[1..] == rest;
    assert forall i :: 0 <= i < |rest| ==> rest[i] == ([e] + rest)[i + 1];
  }

  lemma Rejoin(data: bytes, lo: nat, mid: nat)
    requires lo <= mid <= |data|
    ensures data[lo..] == data[lo..mid] + data[mid..]
  {
  }

  /** A body parses to `es` exactly when it is the print of `es` and `es` is well formed. */
  lemma ParseInvertsPrint(data: bytes, es: seq<Entry>)
    ensures Parse(data) == Some(es) <==> AllWellFormed(es) && data == Print(es)
  {
    if AllWellFormed(es) && data == Print(es) {
      ParsePrintedFrom([], es);
      assert [] + Print(es) == Print(es);
    }
    if Parse(data) == Some(es) {
      ParsedIsPrinted(data, 0);
      assert data[0..] == data;
    }
  }
}
