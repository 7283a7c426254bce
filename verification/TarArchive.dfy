/**
 The raw archive validator against a printer and a reader: it accepts exactly the printed
 archives, and a printed archive determines the manifest and payloads it was printed from.
 */
module TarArchive {
  import opened Bytes
  import opened Numerals
  import PaxComment
  import opened UstarHeader

  // ---------- printer ----------

  function Stored(size: nat): (r: nat)
    ensures size <= r < size + BLOCK && r % 512 == 0
  {
    ((size + 511) / 512) * 512
  }

  predicate Printable(ms: seq<Member>, payloads: seq<bytes>, mtime: nat) {
    |payloads| == |ms|
    && forall i :: 0 <= i < |ms| ==> MemberFits(ms[i], mtime) && |payloads[i]| == ms[i].size
  }

  function PrintMember(m: Member, payload: bytes, mtime: nat): bytes
    requires MemberFits(m, mtime) && |payload| == m.size
  {
    MemberHeader(m, mtime) + payload + Zeros(Stored(m.size) - m.size)
  }

  function PrintMembers(ms: seq<Member>, payloads: seq<bytes>, mtime: nat): bytes
    requires Printable(ms, payloads, mtime)
  {
    if ms == [] then [] else PrintMember(ms[0], payloads[0], mtime) + PrintMembers(ms[1..], payloads[1..], mtime)
  }

  function PrintPax(head: bytes, mtime: nat): bytes {
    var record := PaxComment.Canonical(head);
    GlobalHeader(|record|, mtime) + record + Zeros(Stored(|record|) - |record|)
  }

  predicate PaxFits(head: bytes, mtime: nat) {
    Fits(|PaxComment.Canonical(head)|, 12) && Fits(mtime, 12)
  }

  /** `data` is the archive of this head, timestamp, manifest and these payloads, closed by `zeroBlocks` zero blocks. */
  predicate IsPrintOf(data: bytes, head: bytes, mtime: nat, manifest: seq<Member>, payloads: seq<bytes>, zeroBlocks: nat) {
    && PaxFits(head, mtime)
    && Printable(manifest, payloads, mtime)
    && zeroBlocks >= 2
    && data == PrintPax(head, mtime) + PrintMembers(manifest, payloads, mtime) + Zeros(512 * zeroBlocks)
  }

  // ---------- what the validator checks from one offset on ----------

  function Extent(m: Member): (r: nat)
    ensures Whole(r)
  {
    BLOCK + Stored(m.size)
  }

  /** A whole number of 512-byte blocks. */
  predicate Whole(n: nat) {
    n % 512 == 0
  }

  lemma WholeSum(a: nat, b: nat)
    requires Whole(a) && Whole(b)
    ensures Whole(a + b)
  {
  }

  predicate FirstAccepted(first: bytes, m: Member, mtime: nat) {
    && |first| == Extent(m)
    && MemberHeaderValid(first[..BLOCK], m, mtime)
    && AllZero(first[BLOCK + m.size..])
  }

  ghost predicate RestAccepted(rest: bytes, ms: seq<Member>, mtime: nat)
    decreases |ms|
  {
    if ms == [] then |rest| >= 1024 && AllZero(rest)
    else
      && |rest| >= Extent(ms[0])
      && FirstAccepted(rest[..Extent(ms[0])], ms[0], mtime)
      && RestAccepted(rest[Extent(ms[0])..], ms[1..], mtime)
  }

  function PayloadIn(first: bytes, m: Member): (payload: bytes)
    requires |first| == Extent(m)
    ensures |payload| == m.size
  {
    first[BLOCK..BLOCK + m.size]
  }

  /** The payload bytes at the places the manifest's sizes put them. */
  function PayloadsAt(rest: bytes, ms: seq<Member>): (r: seq<bytes>)
    ensures |r| == |ms|
    decreases |ms|
  {
    if ms == [] then []
    else if |rest| < Extent(ms[0]) then [[]] + PayloadsAt([], ms[1..])
    else [PayloadIn(rest[..Extent(ms[0])], ms[0])] + PayloadsAt(rest[Extent(ms[0])..], ms[1..])
  }

  /** One accepted stretch is one printed member. */
  lemma FirstIsPrinted(first: bytes, m: Member, mtime: nat)
    ensures FirstAccepted(first, m, mtime)
            <==> |first| == Extent(m) && MemberFits(m, mtime) && first == PrintMember(m, PayloadIn(first, m), mtime)
  {
    hide MemberHeader, MemberHeaderValid, MemberFits;
    if |first| == Extent(m) {
      MemberHeaderIsUnique(first[..BLOCK], m, mtime);
      assert first == first[..BLOCK] + PayloadIn(first, m) + first[BLOCK + m.size..];
      var filler := Zeros(Stored(m.size) - m.size);
      assert AllZero(first[BLOCK + m.size..]) <==> first[BLOCK + m.size..] == filler;
      if MemberFits(m, mtime) {
        CutThree(MemberHeader(m, mtime), PayloadIn(first, m), filler);
      }
    }
  }

  lemma PrintedIsFirst(m: Member, payload: bytes, mtime: nat)
    requires MemberFits(m, mtime) && |payload| == m.size
    ensures var first := PrintMember(m, payload, mtime);
            |first| == Extent(m) && FirstAccepted(first, m, mtime) && PayloadIn(first, m) == payload
            && first[..BLOCK] == MemberHeader(m, mtime)
  {
    hide MemberHeader, MemberHeaderValid, MemberFits;
    MemberHeaderIsUnique(MemberHeader(m, mtime), m, mtime);
    CutThree(MemberHeader(m, mtime), payload, Zeros(Stored(m.size) - m.size));
    FirstIsPrinted(PrintMember(m, payload, mtime), m, mtime);
  }

  lemma CutThree(a: bytes, b: bytes, c: bytes)
    ensures var s := a + b + c;
            s[..|a|] == a && s[|a|..|a| + |b|] == b && s[|a| + |b|..] == c
  {
  }

  lemma PrintCons(ms: seq<Member>, payloads: seq<bytes>, mtime: nat)
    requires |ms| == |payloads| > 0
    ensures Printable(ms, payloads, mtime)
            <==> MemberFits(ms[0], mtime) && |payloads[0]| == ms[0].size && Printable(ms[1..], payloads[1..], mtime)
    ensures Printable(ms, payloads, mtime)
            ==> PrintMembers(ms, payloads, mtime)
                == PrintMember(ms[0], payloads[0], mtime) + PrintMembers(ms[1..], payloads[1..], mtime)
  {
    hide MemberFits, PrintMember;
    assert forall i :: 1 <= i < |ms| ==> ms[i] == ms[1..][i - 1] && payloads[i] == payloads[1..][i - 1];
  }

  lemma RestCons(first: bytes, others: bytes, ms: seq<Member>, mtime: nat)
    requires ms != [] && |first| == Extent(ms[0])
    ensures RestAccepted(first + others, ms, mtime)
            <==> FirstAccepted(first, ms[0], mtime) && RestAccepted(others, ms[1..], mtime)
    ensures PayloadsAt(first + others, ms) == [PayloadIn(first, ms[0])] + PayloadsAt(others, ms[1..])
  {
    hide FirstAccepted, PayloadIn;
    assert (first + others)[..|first|] == first && (first + others)[|first|..] == others;
  }

  lemma {:induction false} AcceptedIsPrinted(rest: bytes, ms: seq<Member>, mtime: nat)
    requires RestAccepted(rest, ms, mtime)
    ensures Printable(ms, PayloadsAt(rest, ms), mtime)
    ensures var printed := PrintMembers(ms, PayloadsAt(rest, ms), mtime);
            |printed| + 1024 <= |rest| && rest == printed + Zeros(|rest| - |printed|) && Whole(|printed|)
    decreases |ms|
  {
    hide FirstAccepted, MemberFits, PayloadIn, PrintMember;
    if ms == [] {
      assert rest == [] + Zeros(|rest|);
    } else {
      var first, others := rest[..Extent(ms[0])], rest[Extent(ms[0])..];
      AcceptedConsIsPrinted(first, others, ms, mtime) by {
        AcceptedIsPrinted(others, ms[1..], mtime);
      }
      assert rest == first + others;
    }
  }

  lemma AcceptedConsIsPrinted(first: bytes, others: bytes, ms: seq<Member>, mtime: nat)
    requires ms != [] && |first| == Extent(ms[0]) && FirstAccepted(first, ms[0], mtime)
    requires Printable(ms[1..], PayloadsAt(others, ms[1..]), mtime)
    requires var printed := PrintMembers(ms[1..], PayloadsAt(others, ms[1..]), mtime);
             |printed| + 1024 <= |others| && others == printed + Zeros(|others| - |printed|) && Whole(|printed|)
    requires RestAccepted(others, ms[1..], mtime)
    ensures var rest := first + others;
            Printable(ms, PayloadsAt(rest, ms), mtime)
            && var printed := PrintMembers(ms, PayloadsAt(rest, ms), mtime);
               |printed| + 1024 <= |rest| && rest == printed + Zeros(|rest| - |printed|) && Whole(|printed|)
  {
    hide PrintMember, FirstAccepted, PayloadIn, MemberFits, RestAccepted, PayloadsAt, PrintMembers, Printable, Whole, Extent;
    var tail := PayloadsAt(others, ms[1..]);
    RestCons(first, others, ms, mtime);
    FirstIsPrinted(first, ms[0], mtime);
    var payloads := PayloadsAt(first + others, ms);
    assert payloads[0] == PayloadIn(first, ms[0]) && payloads[1..] == tail;
    PrintCons(ms, payloads, mtime);
    var printed := PrintMembers(ms[1..], tail, mtime);
    WholeSum(|first|, |printed|);
    Associate(first, printed, Zeros(|others| - |printed|));
  }

  lemma Associate(a: bytes, b: bytes, c: bytes)
    ensures a + (b + c) == a + b + c
  {
  }

  lemma {:induction false} PrintedIsAccepted(ms: seq<Member>, payloads: seq<bytes>, mtime: nat, zeros: nat)
    requires Printable(ms, payloads, mtime) && zeros >= 1024
    ensures var rest := PrintMembers(ms, payloads, mtime) + Zeros(zeros);
            RestAccepted(rest, ms, mtime) && PayloadsAt(rest, ms) == payloads
    ensures Whole(|PrintMembers(ms, payloads, mtime)|)
    decreases |ms|
  {
    if ms == [] {
      assert [] + Zeros(zeros) == Zeros(zeros);
    } else {
      PrintCons(ms, payloads, mtime);
      PrintedConsIsAccepted(ms, payloads, mtime, Zeros(zeros)) by {
        PrintedIsAccepted(ms[1..], payloads[1..], mtime, zeros);
      }
    }
  }

  lemma PrintedConsIsAccepted(ms: seq<Member>, payloads: seq<bytes>, mtime: nat, end: bytes)
    requires |ms| == |payloads| > 0 && MemberFits(ms[0], mtime) && |payloads[0]| == ms[0].size
    requires Printable(ms[1..], payloads[1..], mtime)
    requires var rest := PrintMembers(ms[1..], payloads[1..], mtime) + end;
             RestAccepted(rest, ms[1..], mtime) && PayloadsAt(rest, ms[1..]) == payloads[1..]
    requires Whole(|PrintMembers(ms[1..], payloads[1..], mtime)|)
    ensures Printable(ms, payloads, mtime) && Whole(|PrintMembers(ms, payloads, mtime)|)
    ensures var rest := PrintMembers(ms, payloads, mtime) + end;
            RestAccepted(rest, ms, mtime) && PayloadsAt(rest, ms) == payloads
  {
    hide PrintMember, FirstAccepted, PayloadIn, MemberFits, RestAccepted, PayloadsAt, PrintMembers, Printable, Whole, Extent;
    PrintCons(ms, payloads, mtime);
    var first := PrintMember(ms[0], payloads[0], mtime);
    var others := PrintMembers(ms[1..], payloads[1..], mtime);
    PrintedIsFirst(ms[0], payloads[0], mtime);
    RestCons(first, others + end, ms, mtime);
    WholeSum(|first|, |others|);
    Associate(first, others, end);
  }

  // ---------- the validator ----------

  /** Python's clamped slice `data[lo:hi]`. */
  function Slice(data: bytes, lo: nat, hi: nat): bytes
    requires lo <= hi
  {
    if lo >= |data| then [] else if hi > |data| then data[lo..] else data[lo..hi]
  }

  predicate Extension(kind: byte) {
    kind == 103 || kind == 120 || kind == 76 || kind == 75 || kind == 83  // g x L K S
  }

  lemma RestStep(data: bytes, offset: nat, ms: seq<Member>, mtime: nat)
    requires offset <= |data| && ms != []
    ensures var m := ms[0];
            var payloadEnd, next := offset + BLOCK + m.size, offset + BLOCK + Stored(m.size);
            RestAccepted(data[offset..], ms, mtime)
            <==> next <= |data| && MemberHeaderValid(data[offset..offset + BLOCK], m, mtime)
                 && AllZero(data[payloadEnd..next]) && RestAccepted(data[next..], ms[1..], mtime)
  {
    hide MemberHeaderValid, AllZero;
    var m := ms[0];
    var payloadEnd, next := offset + BLOCK + m.size, offset + BLOCK + Stored(m.size);
    if next <= |data| {
      var first := data[offset..][..Extent(m)];
      assert first[..BLOCK] == data[offset..offset + BLOCK];
      assert first[BLOCK + m.size..] == data[payloadEnd..next];
      assert data[offset..][Extent(m)..] == data[next..];
    }
  }

  /** The checks made before the member header check refuse nothing that it would accept. */
  lemma EarlyRefusals(data: bytes, offset: nat, member: Member, mtime: nat)
    requires offset <= |data|
    ensures var h := Slice(data, offset, offset + BLOCK);
            (|h| == BLOCK ==> offset + BLOCK <= |data| && h == data[offset..offset + BLOCK])
            && (|h| != BLOCK ==> offset + BLOCK > |data|)
            && (MemberHeaderValid(h, member, mtime) ==> |h| == BLOCK && h != Zeros(BLOCK) && !Extension(h[156]))
  {
    var h := Slice(data, offset, offset + BLOCK);
    if MemberHeaderValid(h, member, mtime) {
      assert h[156..157] == [h[156]];
    }
  }

  ghost predicate Accepted(data: bytes, head: bytes, mtime: nat, manifest: seq<Member>) {
    Framed(data, head, mtime) && RestAccepted(data[PaxEnd(head)..], manifest, mtime)
  }

  /** The checks made before the first member, as `_parse_raw_tar` writes them. */
  predicate FrontChecks(data: bytes, head: bytes, mtime: nat) {
    var record := PaxComment.Canonical(head);
    && |data| % 512 == 0 && |data| >= 1536
    && GlobalHeaderValid(data[..512], |record|, mtime)
    && Slice(data, 512, 512 + |record|) == record
    && AllZero(Slice(data, 512 + |record|, 512 + Stored(|record|)))
  }

  lemma AcceptedBySlices(data: bytes, head: bytes, mtime: nat, manifest: seq<Member>)
    ensures FrontChecks(data, head, mtime) ==> PaxEnd(head) <= |data|
    ensures Accepted(data, head, mtime, manifest)
            <==> FrontChecks(data, head, mtime) && RestAccepted(data[PaxEnd(head)..], manifest, mtime)
  {
    hide GlobalHeaderValid, PaxComment.Canonical, RestAccepted;
    if Accepted(data, head, mtime, manifest) {
      RestIsLong(data[PaxEnd(head)..], manifest, mtime);
    }
    if Framed(data, head, mtime) {
      var record := PaxComment.Canonical(head);
      assert Slice(data, BLOCK, BLOCK + |record|) == data[BLOCK..BLOCK + |record|];
      assert Slice(data, BLOCK + |record|, PaxEnd(head)) == data[BLOCK + |record|..PaxEnd(head)];
    }
  }

  /** `_parse_raw_tar`: `ok` stands for returning without raising. */
  method ParseRawTar(data: bytes, head: bytes, commitTimestamp: nat, manifest: seq<Member>) returns (ok: bool)
    ensures ok <==> exists payloads, zeroBlocks :: IsPrintOf(data, head, commitTimestamp, manifest, payloads, zeroBlocks)
    ensures ok ==> |data| >= PaxEnd(head)
                   && exists zeroBlocks :: IsPrintOf(data, head, commitTimestamp, manifest,
                                                     PayloadsAt(data[PaxEnd(head)..], manifest), zeroBlocks)
  {
    hide GlobalHeaderValid, MemberHeaderValid, RestAccepted, IsPrintOf, PayloadsAt, Accepted, AllZero, Slice, Extension;
    ghost var wanted := Accepted(data, head, commitTimestamp, manifest);
    AcceptanceIsPrinting(data, head, commitTimestamp, manifest);
    AcceptedBySlices(data, head, commitTimestamp, manifest);
    if |data| % 512 != 0 || |data| < 1536 {
      return false;
    }
    var record := PaxComment.PaxCommentLoop(head);
    if !GlobalHeaderValid(data[..512], |record|, commitTimestamp) {
      return false;
    }
    var paxSize := |record|;
    if Slice(data, 512, 512 + paxSize) != record {
      return false;
    }
    var offset: nat := 512 + Stored(paxSize);
    if !AllZero(Slice(data, 512 + paxSize, offset)) {
      return false;
    }
    var i := 0;
    while i < |manifest|
      invariant 0 <= i <= |manifest| && offset <= |data|
      invariant wanted <==> RestAccepted(data[offset..], manifest[i..], commitTimestamp)
    {
      var member := manifest[i];
      RestStep(data, offset, manifest[i..], commitTimestamp);
      assert manifest[i..][1..] == manifest[i + 1..];
      var header := Slice(data, offset, offset + 512);
      EarlyRefusals(data, offset, member, commitTimestamp);
      if |header| != 512 || header == Zeros(512) {
        return false;
      }
      if Extension(header[156]) {
        return false;
      }
      if !MemberHeaderValid(header, member, commitTimestamp) {
        return false;
      }
      var payloadEnd := offset + 512 + member.size;
      var nextOffset := offset + 512 + Stored(member.size);
      if nextOffset > |data| {
        return false;
      }
      if !AllZero(data[payloadEnd..nextOffset]) {
        return false;
      }
      offset := nextOffset;
      i := i + 1;
    }
    assert manifest[i..] == [];
    RestAtEnd(data[offset..], commitTimestamp);
    EndsInZeros(data, offset);
    if Slice(data, offset, offset + 512) != Zeros(512) {
      return false;
    }
    if Slice(data, offset + 512, offset + 1024) != Zeros(512) || !AllZero(Slice(data, offset + 1024, |data| + offset + 1024)) {
      return false;
    }
    return true;
  }

  lemma RestAtEnd(rest: bytes, mtime: nat)
    ensures RestAccepted(rest, [], mtime) <==> |rest| >= 1024 && AllZero(rest)
  {
  }

  lemma {:induction false} RestIsLong(rest: bytes, ms: seq<Member>, mtime: nat)
    requires RestAccepted(rest, ms, mtime)
    ensures |rest| >= 1024
    decreases |ms|
  {
    if ms != [] { RestIsLong(rest[Extent(ms[0])..], ms[1..], mtime); }
  }

  lemma EndsInZeros(data: bytes, offset: nat)
    requires offset <= |data|
    ensures |data[offset..]| >= 1024 && AllZero(data[offset..])
            <==> Slice(data, offset, offset + 512) == Zeros(512) && Slice(data, offset + 512, offset + 1024) == Zeros(512)
                 && AllZero(Slice(data, offset + 1024, |data| + offset + 1024))
  {
    var rest := data[offset..];
    if |rest| >= 1024 {
      assert rest == Slice(data, offset, offset + 512) + Slice(data, offset + 512, offset + 1024)
                     + Slice(data, offset + 1024, |data| + offset + 1024);
      if AllZero(rest) {
        assert Slice(data, offset, offset + 512) == rest[..512] == Zeros(512);
        assert Slice(data, offset + 512, offset + 1024) == rest[512..1024] == Zeros(512);
        assert Slice(data, offset + 1024, |data| + offset + 1024) == rest[1024..];
      }
    } else {
      assert |Slice(data, offset, offset + 512)| < 512 || |Slice(data, offset + 512, offset + 1024)| < 512;
    }
  }

  function PaxEnd(head: bytes): nat {
    BLOCK + Stored(|PaxComment.Canonical(head)|)
  }

  /** What the validator establishes about the bytes before the first member. */
  ghost predicate Framed(data: bytes, head: bytes, mtime: nat) {
    var record := PaxComment.Canonical(head);
    && |data| % 512 == 0 && PaxEnd(head) <= |data|
    && GlobalHeaderValid(data[..BLOCK], |record|, mtime)
    && data[BLOCK..BLOCK + |record|] == record
    && AllZero(data[BLOCK + |record|..PaxEnd(head)])
  }

  lemma FramedIsPrinted(data: bytes, head: bytes, mtime: nat)
    ensures PaxFits(head, mtime) ==> |PrintPax(head, mtime)| == PaxEnd(head)
    ensures Framed(data, head, mtime)
            <==> PaxFits(head, mtime) && |data| % 512 == 0 && |data| >= PaxEnd(head)
                 && data[..PaxEnd(head)] == PrintPax(head, mtime)
  {
    hide GlobalHeaderValid, GlobalHeader, PaxComment.Canonical, Fits;
    var record := PaxComment.Canonical(head);
    var start := PaxEnd(head);
    var filler := Stored(|record|) - |record|;
    GlobalHeaderIsUnique(GlobalHeader(|record|, mtime), |record|, mtime);
    if |data| >= start {
      GlobalHeaderIsUnique(data[..BLOCK], |record|, mtime);
      var front := data[..start];
      assert front == data[..BLOCK] + data[BLOCK..BLOCK + |record|] + data[BLOCK + |record|..start];
      if PaxFits(head, mtime) && front == PrintPax(head, mtime) {
        assert data[..BLOCK] == front[..BLOCK] == GlobalHeader(|record|, mtime);
        assert data[BLOCK..BLOCK + |record|] == front[BLOCK..BLOCK + |record|] == record;
        assert data[BLOCK + |record|..start] == front[BLOCK + |record|..] == Zeros(filler);
      }
      if Framed(data, head, mtime) {
        assert data[BLOCK + |record|..start] == Zeros(filler);
      }
    }
  }

  lemma AcceptedHasPrint(data: bytes, head: bytes, mtime: nat, manifest: seq<Member>)
    requires Accepted(data, head, mtime, manifest)
    ensures |data| >= PaxEnd(head)
    ensures exists zeroBlocks :: IsPrintOf(data, head, mtime, manifest, PayloadsAt(data[PaxEnd(head)..], manifest), zeroBlocks)
  {
    hide PrintPax, PrintMembers, RestAccepted, Printable, PaxFits, PayloadsAt, PaxComment.Canonical, GlobalHeaderValid;
    FramedIsPrinted(data, head, mtime);
    var rest := data[PaxEnd(head)..];
    var payloads := PayloadsAt(rest, manifest);
    AcceptedIsPrinted(rest, manifest, mtime);
    var printed := PrintMembers(manifest, payloads, mtime);
    var zeroBlocks := WholeBlocks(|rest| - |printed|) by {
      assert Whole(|rest| - |printed|);
    }
    assert data == data[..PaxEnd(head)] + rest;
    Associate(PrintPax(head, mtime), printed, Zeros(512 * zeroBlocks));
    assert IsPrintOf(data, head, mtime, manifest, payloads, zeroBlocks);
  }

  function WholeBlocks(n: nat): (k: nat)
    requires Whole(n)
    ensures 512 * k == n
  {
    n / 512
  }

  lemma PrintHasAcceptance(data: bytes, head: bytes, mtime: nat, manifest: seq<Member>, payloads: seq<bytes>, zeroBlocks: nat)
    requires IsPrintOf(data, head, mtime, manifest, payloads, zeroBlocks)
    ensures Accepted(data, head, mtime, manifest)
  {
    hide PrintPax, PrintMembers, RestAccepted, Printable, PaxFits, PayloadsAt, PaxComment.Canonical, GlobalHeaderValid;
    FramedIsPrinted(data, head, mtime);
    PrintedIsAccepted(manifest, payloads, mtime, 512 * zeroBlocks);
    var tail := PrintMembers(manifest, payloads, mtime) + Zeros(512 * zeroBlocks);
    Associate(PrintPax(head, mtime), PrintMembers(manifest, payloads, mtime), Zeros(512 * zeroBlocks));
    CutThree(PrintPax(head, mtime), tail, []);
    assert data == PrintPax(head, mtime) + tail + [];
  }

  lemma AcceptanceIsPrinting(data: bytes, head: bytes, mtime: nat, manifest: seq<Member>)
    ensures Accepted(data, head, mtime, manifest)
            <==> exists payloads, zeroBlocks :: IsPrintOf(data, head, mtime, manifest, payloads, zeroBlocks)
    ensures Accepted(data, head, mtime, manifest)
            ==> |data| >= PaxEnd(head)
                && exists zeroBlocks :: IsPrintOf(data, head, mtime, manifest, PayloadsAt(data[PaxEnd(head)..], manifest), zeroBlocks)
  {
    hide Accepted, IsPrintOf;
    if Accepted(data, head, mtime, manifest) {
      AcceptedHasPrint(data, head, mtime, manifest);
    }
    if payloads: seq<bytes>, zeroBlocks: nat :| IsPrintOf(data, head, mtime, manifest, payloads, zeroBlocks) {
      PrintHasAcceptance(data, head, mtime, manifest, payloads, zeroBlocks);
    }
  }

  // ---------- reader ----------

  datatype Entry = Entry(view: View, payload: bytes)

  datatype Contents = Contents(head: bytes, mtime: nat, members: seq<Entry>)

  function ReadMembers(rest: bytes): Option<seq<Entry>>
    decreases |rest|
  {
    if |rest| < BLOCK then None
    else if AllZero(rest[..BLOCK]) then Some([])
    else
      var view := ReadBlock(rest[..BLOCK]);
      if view.None? || |rest| < BLOCK + Stored(view.value.size) then None
      else
        var others := ReadMembers(rest[BLOCK + Stored(view.value.size)..]);
        if others.None? then None
        else Some([Entry(view.value, rest[BLOCK..BLOCK + view.value.size])] + others.value)
  }

  /** A reader that is given the bytes alone. */
  function ReadArchive(data: bytes): Option<Contents> {
    if |data| < BLOCK then None
    else
      var mtime := ReadOctal(data[136..148]);
      var pax := PaxComment.Read(data[BLOCK..]);
      if mtime.None? || pax.None? || |data| < BLOCK + Stored(pax.value.size) then None
      else
        var members := ReadMembers(data[BLOCK + Stored(pax.value.size)..]);
        if members.None? then None else Some(Contents(pax.value.oid, mtime.value, members.value))
  }

  function ContentsOf(head: bytes, mtime: nat, manifest: seq<Member>, payloads: seq<bytes>): Contents
    requires |payloads| == |manifest|
  {
    Contents(head, mtime, seq(|manifest|, i requires 0 <= i < |manifest| => Entry(ViewOf(manifest[i]), payloads[i])))
  }

  predicate AllRecoverable(manifest: seq<Member>) {
    forall i :: 0 <= i < |manifest| ==> Recoverable(manifest[i])
  }

  lemma {:induction false} ReadPrintedMembers(ms: seq<Member>, payloads: seq<bytes>, mtime: nat, zeros: nat)
    requires Printable(ms, payloads, mtime) && zeros >= BLOCK
    ensures ReadMembers(PrintMembers(ms, payloads, mtime) + Zeros(zeros)) == Some(ContentsOf([], mtime, ms, payloads).members)
            <==> AllRecoverable(ms)
    decreases |ms|
  {
    hide MemberHeader, MemberFits, ReadBlock, Recoverable, PrintMember, PayloadIn, FirstAccepted;
    var rest := PrintMembers(ms, payloads, mtime) + Zeros(zeros);
    var all := ContentsOf([], mtime, ms, payloads).members;
    if ms == [] {
      assert rest == Zeros(zeros);
      assert all == [];
    } else {
      var m := ms[0];
      PrintCons(ms, payloads, mtime);
      PrintedIsFirst(m, payloads[0], mtime);
      HeaderIsNotZero(m, mtime);
      ReadMemberHeader(m, mtime);
      var first := PrintMember(m, payloads[0], mtime);
      var others := PrintMembers(ms[1..], payloads[1..], mtime) + Zeros(zeros);
      Associate(first, PrintMembers(ms[1..], payloads[1..], mtime), Zeros(zeros));
      ReadPrintedMembers(ms[1..], payloads[1..], mtime, zeros);
      var tail := ContentsOf([], mtime, ms[1..], payloads[1..]).members;
      assert all == [Entry(ViewOf(m), payloads[0])] + tail;
      assert all[1..] == tail;
      assert AllRecoverable(ms) <==> Recoverable(m) && AllRecoverable(ms[1..]) by {
        assert forall i :: 1 <= i < |ms| ==> ms[i] == ms[1..][i - 1];
      }
      assert first[124..136] == first[..BLOCK][124..136];
      ReadFirst(first, others, m);
    }
  }

  /** One step of the reader over a stretch whose header carries the size of `m`. */
  lemma ReadFirst(first: bytes, others: bytes, m: Member)
    requires |first| == Extent(m) && !AllZero(first[..BLOCK])
    requires ReadOctal(first[124..136]) == Some(m.size)
    ensures var rest := first + others;
            var view, tail := ReadBlock(first[..BLOCK]), ReadMembers(others);
            ReadMembers(rest) == (if view.None? || tail.None? then None
                                  else Some([Entry(view.value, PayloadIn(first, m))] + tail.value))
  {
    hide ReadOctal;
    assert first[..BLOCK][124..136] == first[124..136];
    assert ReadBlock(first[..BLOCK]).Some? ==> ReadBlock(first[..BLOCK]).value.size == m.size;
    hide ReadBlock;
    Cut(first, others, BLOCK, BLOCK + m.size);
  }

  /** Slices of the first part of a concatenation. */
  lemma Cut(first: bytes, others: bytes, lo: nat, hi: nat)
    requires lo <= hi <= |first|
    ensures var whole := first + others;
            whole[..lo] == first[..lo] && whole[lo..hi] == first[lo..hi] && whole[|first|..] == others
  {
  }

  lemma HeaderIsNotZero(m: Member, mtime: nat)
    requires MemberFits(m, mtime)
    ensures |MemberHeader(m, mtime)| == BLOCK && !AllZero(MemberHeader(m, mtime))
  {
    var h := MemberHeader(m, mtime);
    MemberHeaderIsUnique(h, m, mtime);
    assert h[156] == h[156..157][0] != 0;
  }

  /** Head and timestamp are read off the front, and the members follow it. */
  lemma FrontFixesHead(data: bytes, head: bytes, mtime: nat, manifest: seq<Member>, payloads: seq<bytes>, zeroBlocks: nat)
    requires IsPrintOf(data, head, mtime, manifest, payloads, zeroBlocks)
    ensures |data| >= PaxEnd(head) && ReadOctal(data[136..148]) == Some(mtime)
    ensures PaxComment.Read(data[BLOCK..]) == Some(PaxComment.Parsed(head, |PaxComment.Canonical(head)|))
    ensures data[PaxEnd(head)..] == PrintMembers(manifest, payloads, mtime) + Zeros(512 * zeroBlocks)
  {
    hide PaxComment.Canonical, PaxComment.Read, GlobalHeader, GlobalHeaderValid, PrintMembers, Printable;
    var record := PaxComment.Canonical(head);
    FramedIsPrinted(data, head, mtime);
    var tail := PrintMembers(manifest, payloads, mtime) + Zeros(512 * zeroBlocks);
    var header := GlobalHeader(|record|, mtime);
    var filler := Zeros(Stored(|record|) - |record|);
    GlobalHeaderReadsTime(|record|, mtime);
    assert data == header + (record + (filler + tail));
    assert data[BLOCK..] == record + (filler + tail);
    PaxComment.ReadCanonical(head, filler + tail);
    assert data[PaxEnd(head)..] == tail;
    assert data[..BLOCK] == header;
    assert data[136..148] == data[..BLOCK][136..148];
  }

  /** Reading a printed archive gives back everything it was printed from, exactly when every member is recoverable. */
  lemma ReadPrintedArchive(data: bytes, head: bytes, mtime: nat, manifest: seq<Member>, payloads: seq<bytes>, zeroBlocks: nat)
    requires IsPrintOf(data, head, mtime, manifest, payloads, zeroBlocks)
    ensures |payloads| == |manifest|
    ensures ReadArchive(data) == Some(ContentsOf(head, mtime, manifest, payloads)) <==> AllRecoverable(manifest)
  {
    hide PaxComment.Canonical, PaxComment.Read, ReadMembers, PrintMembers, MemberFits;
    FrontFixesHead(data, head, mtime, manifest, payloads, zeroBlocks);
    ReadPrintedMembers(manifest, payloads, mtime, 512 * zeroBlocks);
    assert ContentsOf([], mtime, manifest, payloads).members == ContentsOf(head, mtime, manifest, payloads).members;
  }

  lemma GlobalHeaderReadsTime(size: nat, mtime: nat)
    requires Fits(size, 12) && Fits(mtime, 12)
    ensures |GlobalHeader(size, mtime)| == BLOCK && ReadOctal(GlobalHeader(size, mtime)[136..148]) == Some(mtime)
  {
    GlobalHeaderIsUnique(GlobalHeader(size, mtime), size, mtime);
    ReadOctalField(mtime, 12);
  }

  /** The same bytes are never the archive of two recoverable manifests that differ in path, kind, mode, size or payload. */
  lemma BytesFixArchive(data: bytes,
                        head: bytes, mtime: nat, manifest: seq<Member>, payloads: seq<bytes>, zeroBlocks: nat,
                        head': bytes, mtime': nat, manifest': seq<Member>, payloads': seq<bytes>, zeroBlocks': nat)
    requires IsPrintOf(data, head, mtime, manifest, payloads, zeroBlocks) && AllRecoverable(manifest)
    requires IsPrintOf(data, head', mtime', manifest', payloads', zeroBlocks') && AllRecoverable(manifest')
    ensures head == head' && mtime == mtime' && payloads == payloads' && |manifest| == |manifest'|
    ensures forall i :: 0 <= i < |manifest| ==> ViewOf(manifest[i]) == ViewOf(manifest'[i])
  {
    hide ReadArchive, IsPrintOf, Recoverable;
    ReadPrintedArchive(data, head, mtime, manifest, payloads, zeroBlocks);
    ReadPrintedArchive(data, head', mtime', manifest', payloads', zeroBlocks');
    var all, all' := ContentsOf(head, mtime, manifest, payloads), ContentsOf(head', mtime', manifest', payloads');
    assert |all.members| == |all'.members|;
    forall i | 0 <= i < |manifest|
      ensures ViewOf(manifest[i]) == ViewOf(manifest'[i]) && payloads[i] == payloads'[i]
    {
      assert all.members[i] == Entry(ViewOf(manifest[i]), payloads[i]);
      assert all'.members[i] == Entry(ViewOf(manifest'[i]), payloads'[i]);
    }
  }

  // ---------- the headers of an accepted archive ----------

  /** Where the header of member `i` begins, behind the first members. */
  function HeaderAt(ms: seq<Member>, i: nat): (r: nat)
    requires i <= |ms|
  {
    if i == 0 then 0 else Extent(ms[0]) + HeaderAt(ms[1..], i - 1)
  }

  lemma {:induction false} HeadersInPlace(ms: seq<Member>, payloads: seq<bytes>, mtime: nat, end: bytes, i: nat)
    requires Printable(ms, payloads, mtime) && i < |ms|
    ensures MemberFits(ms[i], mtime) && |MemberHeader(ms[i], mtime)| == BLOCK
    ensures var rest, at := PrintMembers(ms, payloads, mtime) + end, HeaderAt(ms, i);
            && at + BLOCK + ms[i].size <= |rest| && rest[at..at + BLOCK] == MemberHeader(ms[i], mtime)
            && rest[at + BLOCK..at + BLOCK + ms[i].size] == payloads[i]
    decreases i
  {
    hide MemberFits, MemberHeader, PrintMember, PrintMembers;
    PrintCons(ms, payloads, mtime);
    var first, tail := PrintMember(ms[0], payloads[0], mtime), PrintMembers(ms[1..], payloads[1..], mtime);
    Associate(first, tail, end);
    FirstInPlace(ms[0], payloads[0], mtime, tail + end);
    if i > 0 {
      HeadersInPlace(ms[1..], payloads[1..], mtime, end, i - 1);
      var at := HeaderAt(ms[1..], i - 1);
      Shifted(first, tail + end, at, at + BLOCK);
      Shifted(first, tail + end, at + BLOCK, at + BLOCK + ms[i].size);
    }
  }

  lemma FirstInPlace(m: Member, payload: bytes, mtime: nat, others: bytes)
    requires MemberFits(m, mtime) && |payload| == m.size
    ensures var first := PrintMember(m, payload, mtime);
            && |MemberHeader(m, mtime)| == BLOCK && |first| == Extent(m)
            && (first + others)[..BLOCK] == MemberHeader(m, mtime) && (first + others)[BLOCK..BLOCK + m.size] == payload
  {
    hide MemberFits, MemberHeader, PrintMember, FirstAccepted;
    PrintedIsFirst(m, payload, mtime);
    HeaderIsNotZero(m, mtime);
    var first := PrintMember(m, payload, mtime);
    assert (first + others)[..BLOCK] == first[..BLOCK];
    assert (first + others)[BLOCK..BLOCK + m.size] == PayloadIn(first, m);
  }

  lemma Shifted(a: bytes, b: bytes, lo: nat, hi: nat)
    requires lo <= hi <= |b|
    ensures (a + b)[|a| + lo..|a| + hi] == b[lo..hi]
  {
  }

  /** A header that POSIX would take, carrying these numbers. */
  predicate IsUstar(h: bytes, size: nat, mtime: nat) {
    SumStored(h) && FixedFields(h) && ReadOctal(h[136..148]) == Some(mtime) && ReadOctal(h[124..136]) == Some(size)
  }

  lemma ValidIsUstar(h: bytes, member: Member, size: nat, mtime: nat)
    ensures MemberHeaderValid(h, member, mtime) ==> IsUstar(h, member.size, mtime)
    ensures GlobalHeaderValid(h, size, mtime) ==> IsUstar(h, size, mtime)
  {
    hide MemberHeaderValid, GlobalHeaderValid, SumStored, FixedFields, ReadOctal;
    if MemberHeaderValid(h, member, mtime) || GlobalHeaderValid(h, size, mtime) {
      AcceptedHeadersCarryTheirSum(h, member, size, mtime);
      AcceptedHeadersAreUstar(h, member, size, mtime);
    }
  }

  lemma FrontIsUstar(data: bytes, head: bytes, mtime: nat, manifest: seq<Member>, payloads: seq<bytes>, zeroBlocks: nat)
    requires IsPrintOf(data, head, mtime, manifest, payloads, zeroBlocks)
    ensures |data| >= BLOCK && IsUstar(data[..BLOCK], |PaxComment.Canonical(head)|, mtime)
  {
    hide PaxComment.Canonical, IsPrintOf, IsUstar, RestAccepted, GlobalHeaderValid;
    PrintHasAcceptance(data, head, mtime, manifest, payloads, zeroBlocks);
    ValidIsUstar(data[..BLOCK], Member([], Dir, [], 0, 0, None), |PaxComment.Canonical(head)|, mtime);
  }

  lemma MemberIsPlaced(data: bytes, start: nat, manifest: seq<Member>, payloads: seq<bytes>, end: bytes, mtime: nat, i: nat)
    requires Printable(manifest, payloads, mtime) && i < |manifest| && start <= |data|
    requires data[start..] == PrintMembers(manifest, payloads, mtime) + end
    ensures var at := start + HeaderAt(manifest, i);
            && at + BLOCK + manifest[i].size <= |data|
            && MemberHeaderValid(data[at..at + BLOCK], manifest[i], mtime)
            && data[at + BLOCK..at + BLOCK + manifest[i].size] == payloads[i]
  {
    hide PrintMembers, MemberHeader, MemberHeaderValid, MemberFits;
    HeadersInPlace(manifest, payloads, mtime, end, i);
    var m, at := manifest[i], HeaderAt(manifest, i);
    Shifted(data[..start], data[start..], at, at + BLOCK);
    Shifted(data[..start], data[start..], at + BLOCK, at + BLOCK + m.size);
    assert data == data[..start] + data[start..];
    MemberHeaderIsUnique(MemberHeader(m, mtime), m, mtime);
  }

  /**
   Whatever the validator accepts is a ustar archive by the format's own rules: the global header and every
   member's header stand where the sizes put them, have the format's fixed fields, and store the sum of their
   512 bytes with the checksum field read as spaces.
   */
  lemma AcceptedArchiveIsUstar(data: bytes, head: bytes, mtime: nat, manifest: seq<Member>, payloads: seq<bytes>, zeroBlocks: nat,
                               i: nat)
    requires IsPrintOf(data, head, mtime, manifest, payloads, zeroBlocks) && i < |manifest|
    ensures |payloads| == |manifest| && |data| >= BLOCK && IsUstar(data[..BLOCK], |PaxComment.Canonical(head)|, mtime)
    ensures var at := PaxEnd(head) + HeaderAt(manifest, i);
            && at + BLOCK + manifest[i].size <= |data| && IsUstar(data[at..at + BLOCK], manifest[i].size, mtime)
            && data[at + BLOCK..at + BLOCK + manifest[i].size] == payloads[i]
  {
    hide PaxComment.Canonical, PaxComment.Read, PrintMembers, PrintPax, PaxFits, IsUstar, MemberHeaderValid, ReadOctal;
    FrontIsUstar(data, head, mtime, manifest, payloads, zeroBlocks);
    FrontFixesHead(data, head, mtime, manifest, payloads, zeroBlocks);
    MemberIsPlaced(data, PaxEnd(head), manifest, payloads, Zeros(512 * zeroBlocks), mtime, i);
    var at := PaxEnd(head) + HeaderAt(manifest, i);
    ValidIsUstar(data[at..at + BLOCK], manifest[i], 0, mtime);
  }

  /** Where the members end. */
  lemma {:induction false} MembersEnd(ms: seq<Member>, payloads: seq<bytes>, mtime: nat)
    requires Printable(ms, payloads, mtime)
    ensures |PrintMembers(ms, payloads, mtime)| == HeaderAt(ms, |ms|)
  {
    hide PrintMember, MemberFits;
    if ms != [] {
      PrintCons(ms, payloads, mtime);
      MembersEnd(ms[1..], payloads[1..], mtime);
      FirstInPlace(ms[0], payloads[0], mtime, []);
    }
  }

  /**
   An accepted archive begins with a global header whose record reads as the head, and after its last member
   come at least 1024 bytes, all of them zero.
   */
  lemma AcceptedArchiveIsClosed(data: bytes, head: bytes, mtime: nat, manifest: seq<Member>, payloads: seq<bytes>, zeroBlocks: nat)
    requires IsPrintOf(data, head, mtime, manifest, payloads, zeroBlocks)
    ensures |data| >= BLOCK && PaxComment.Read(data[BLOCK..]) == Some(PaxComment.Parsed(head, |PaxComment.Canonical(head)|))
    ensures var end := PaxEnd(head) + HeaderAt(manifest, |manifest|);
            |data| >= end + 1024 && forall i :: end <= i < |data| ==> data[i] == 0
  {
    hide PaxComment.Canonical, PaxComment.Read, PrintMembers, PrintPax, Printable, PaxFits, RestAccepted, GlobalHeaderValid;
    FramedIsPrinted(data[..], head, mtime);
    MembersEnd(manifest, payloads, mtime);
    PrintHasAcceptance(data, head, mtime, manifest, payloads, zeroBlocks);
    RecordReads(data, head, |PaxComment.Canonical(head)|);
    hide PaxEnd;
  }

  lemma RecordReads(data: bytes, head: bytes, size: nat)
    requires size == |PaxComment.Canonical(head)| && |data| >= BLOCK + size && data[BLOCK..BLOCK + size] == PaxComment.Canonical(head)
    ensures PaxComment.Read(data[BLOCK..]) == Some(PaxComment.Parsed(head, size))
  {
    hide PaxComment.Canonical, PaxComment.Read;
    PaxComment.ReadCanonical(head, data[BLOCK + size..]);
    assert data[BLOCK..] == data[BLOCK..BLOCK + size] + data[BLOCK + size..];
  }

  // ---------- when two manifests share their bytes ----------

  /** The manifests store the same fields, member by member. */
  predicate SameFields(ms: seq<Member>, ms': seq<Member>) {
    |ms| == |ms'| && forall i :: 0 <= i < |ms| ==> StoredFields(ms'[i]) == StoredFields(ms[i])
  }

  lemma SameFieldsCons(ms: seq<Member>, ms': seq<Member>)
    requires ms != [] && ms' != []
    ensures SameFields(ms, ms') <==> StoredFields(ms'[0]) == StoredFields(ms[0]) && SameFields(ms[1..], ms'[1..])
  {
    hide StoredFields;
    if |ms| == |ms'| {
      assert forall i :: 1 <= i < |ms| ==> ms[i] == ms[1..][i - 1] && ms'[i] == ms'[1..][i - 1];
    }
  }

  lemma {:induction false} SameFieldsPrintSame(ms: seq<Member>, ms': seq<Member>, payloads: seq<bytes>, mtime: nat)
    requires Printable(ms, payloads, mtime) && SameFields(ms, ms')
    ensures Printable(ms', payloads, mtime) && PrintMembers(ms', payloads, mtime) == PrintMembers(ms, payloads, mtime)
    decreases |ms|
  {
    hide MemberFits, MemberHeader, StoredFields;
    if ms != [] {
      PrintCons(ms, payloads, mtime);
      PrintCons(ms', payloads, mtime);
      SameFieldsCons(ms, ms');
      HeaderIsItsFields(ms[0], ms'[0], mtime);
      SameSize(ms[0], ms'[0], mtime);
      SameFieldsPrintSame(ms[1..], ms'[1..], payloads[1..], mtime);
    }
  }

  lemma SameSize(m: Member, m': Member, mtime: nat)
    requires MemberFits(m, mtime) && StoredFields(m') == StoredFields(m)
    ensures m'.size == m.size
  {
  }

  /** Equal bytes from the first member on mean equal fields, payloads and zero blocks. */
  lemma {:induction false} SameBytesSameFields(ms: seq<Member>, payloads: seq<bytes>, end: bytes,
                                               ms': seq<Member>, payloads': seq<bytes>, end': bytes, mtime: nat)
    requires Printable(ms, payloads, mtime) && Printable(ms', payloads', mtime)
    requires AllZero(end) && AllZero(end') && |end| >= BLOCK && |end'| >= BLOCK
    requires PrintMembers(ms, payloads, mtime) + end == PrintMembers(ms', payloads', mtime) + end'
    ensures SameFields(ms, ms') && payloads == payloads' && end == end'
    decreases |ms|
  {
    hide MemberFits, AllZero, PrintMember, StoredFields, SameFields;
    if ms == [] {
      EmptyPrint(payloads, end, mtime);
      NoMemberIsZero(ms', payloads', end', mtime);
      assert ms' == [];
      EmptyPrint(payloads', end', mtime);
      NothingToCompare();
    } else {
      NoMemberIsZero(ms, payloads, end, mtime);
      if ms' == [] {
        EmptyPrint(payloads', end', mtime);
        assert false;
      } else {
        PrintCons(ms, payloads, mtime);
        PrintCons(ms', payloads', mtime);
        var others, others' := PrintMembers(ms[1..], payloads[1..], mtime), PrintMembers(ms'[1..], payloads'[1..], mtime);
        Associate(PrintMember(ms[0], payloads[0], mtime), others, end);
        Associate(PrintMember(ms'[0], payloads'[0], mtime), others', end');
        FirstMembersAgree(ms[0], payloads[0], others + end, ms'[0], payloads'[0], others' + end', mtime);
        SameBytesSameFields(ms[1..], payloads[1..], end, ms'[1..], payloads'[1..], end', mtime);
        SameFieldsCons(ms, ms');
        assert payloads == [payloads[0]] + payloads[1..] && payloads' == [payloads'[0]] + payloads'[1..];
      }
    }
  }

  lemma NothingToCompare()
    ensures SameFields([], [])
  {
  }

  lemma EmptyPrint(payloads: seq<bytes>, end: bytes, mtime: nat)
    requires Printable([], payloads, mtime)
    ensures payloads == [] && PrintMembers([], payloads, mtime) + end == end
  {
  }

  /** The bytes from the first member on begin with a zero block only if there is no member. */
  lemma NoMemberIsZero(ms: seq<Member>, payloads: seq<bytes>, end: bytes, mtime: nat)
    requires Printable(ms, payloads, mtime)
    ensures ms != [] ==> !AllZero(PrintMembers(ms, payloads, mtime) + end)
  {
    hide MemberFits, MemberHeader, PrintMember, FirstAccepted, PayloadIn;
    if ms != [] {
      PrintCons(ms, payloads, mtime);
      HeaderIsNotZero(ms[0], mtime);
      PrintedIsFirst(ms[0], payloads[0], mtime);
      var first := PrintMember(ms[0], payloads[0], mtime);
      var whole := PrintMembers(ms, payloads, mtime) + end;
      assert whole[..BLOCK] == first[..BLOCK];
      assert forall i :: 0 <= i < BLOCK ==> whole[i] == first[..BLOCK][i];
    }
  }

  lemma FirstMembersAgree(m: Member, payload: bytes, rest: bytes, m': Member, payload': bytes, rest': bytes, mtime: nat)
    requires MemberFits(m, mtime) && |payload| == m.size && MemberFits(m', mtime) && |payload'| == m'.size
    requires PrintMember(m, payload, mtime) + rest == PrintMember(m', payload', mtime) + rest'
    ensures StoredFields(m') == StoredFields(m) && payload == payload' && rest == rest'
  {
    hide MemberFits, MemberHeader, PrintMember, FirstAccepted, StoredFields;
    PrintedIsFirst(m, payload, mtime);
    PrintedIsFirst(m', payload', mtime);
    var first, first' := PrintMember(m, payload, mtime), PrintMember(m', payload', mtime);
    var whole := first + rest;
    assert whole[..BLOCK] == first[..BLOCK] && whole[..BLOCK] == first'[..BLOCK];
    HeaderIsItsFields(m, m', mtime);
    SameSize(m, m', mtime);
    assert whole[..|first|] == first && whole[..|first|] == first';
    assert whole[|first|..] == rest && whole[|first|..] == rest';
  }

  /**
   Exactly when two manifests share an archive: head, timestamp, payloads and zero blocks are the same, and so
   are the fields that each member stores.
   */
  lemma SharedArchiveIffSharedFields(data: bytes,
                                     head: bytes, mtime: nat, manifest: seq<Member>, payloads: seq<bytes>, zeroBlocks: nat,
                                     head': bytes, mtime': nat, manifest': seq<Member>, payloads': seq<bytes>, zeroBlocks': nat)
    requires IsPrintOf(data, head, mtime, manifest, payloads, zeroBlocks)
    ensures IsPrintOf(data, head', mtime', manifest', payloads', zeroBlocks')
            <==> head' == head && mtime' == mtime && payloads' == payloads && zeroBlocks' == zeroBlocks && SameFields(manifest, manifest')
  {
    hide PrintPax, PrintMembers, Printable, PaxFits, SameFields;
    if SameFields(manifest, manifest') {
      SameFieldsPrintSame(manifest, manifest', payloads, mtime);
    }
    if IsPrintOf(data, head', mtime', manifest', payloads', zeroBlocks') {
      FrontFixesHead(data, head, mtime, manifest, payloads, zeroBlocks);
      FrontFixesHead(data, head', mtime', manifest', payloads', zeroBlocks');
      SameBytesSameFields(manifest, payloads, Zeros(512 * zeroBlocks), manifest', payloads', Zeros(512 * zeroBlocks'), mtime);
      assert |Zeros(512 * zeroBlocks)| == |Zeros(512 * zeroBlocks')|;
    }
  }

  /**
   Without recoverability manifests do collide: in any archive, a file's path may be followed by a NUL and
   leave every byte as it is, exactly if the longer name has a spelling and the shorter one does not just
   fill its field.
   */
  lemma NulTailCollides(data: bytes, head: bytes, mtime: nat, manifest: seq<Member>, payloads: seq<bytes>, zeroBlocks: nat, i: nat)
    requires IsPrintOf(data, head, mtime, manifest, payloads, zeroBlocks)
    requires i < |manifest| && manifest[i].kind == File && manifest[i].path != []
    requires manifest[i].path[|manifest[i].path| - 1] != SLASH
    ensures var m := manifest[i];
            IsPrintOf(data, head, mtime, manifest[i := m.(path := m.path + [0])], payloads, zeroBlocks)
            <==> Spell(FullName(m.path + [0], File)).Some? && |FullName(m.path, File)| != 100
  {
    hide IsPrintOf, Spell, FullName;
    var m := manifest[i];
    var nul := m.(path := m.path + [0]);
    SharedArchiveIffSharedFields(data, head, mtime, manifest, payloads, zeroBlocks,
                                 head, mtime, manifest[i := nul], payloads, zeroBlocks);
    PrintedSpells(data, head, mtime, manifest, payloads, zeroBlocks, i);
    NulTailIsInvisible(m.path);
    assert SameFields(manifest, manifest[i := nul]) <==> StoredFields(nul) == StoredFields(m);
  }

  lemma PrintedSpells(data: bytes, head: bytes, mtime: nat, manifest: seq<Member>, payloads: seq<bytes>, zeroBlocks: nat, i: nat)
    requires IsPrintOf(data, head, mtime, manifest, payloads, zeroBlocks) && i < |manifest|
    ensures Spell(FullName(manifest[i].path, manifest[i].kind)).Some?
  {
    hide PrintPax, PrintMembers, PaxFits;
  }
}
