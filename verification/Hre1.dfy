/** The HRE1 record frame: length-prefixed, and injective in every field. */
module Hre1 {
  import opened Bytes

  // ---------- hexadecimal text ----------

  predicate IsHexDigit(c: byte) {
    48 <= c <= 57 || 97 <= c <= 102
  }

  predicate IsHex(s: bytes) {
    forall i :: 0 <= i < |s| ==> IsHexDigit(s[i])
  }

  function Nibble(c: byte): (n: nat)
    requires IsHexDigit(c)
    ensures n < 16
  {
    if c <= 57 then c - 48 else c - 87
  }

  /** `bytes.fromhex`. */
  function FromHex(s: bytes): (r: bytes)
    requires IsHex(s) && |s| % 2 == 0
    ensures |r| == |s| / 2
  {
    if s == [] then [] else [16 * Nibble(s[0]) + Nibble(s[1])] + FromHex(s[2..])
  }

  // ---------- canonical identifiers, times and digests ----------

  predicate IsDash(i: nat) {
    i == 8 || i == 13 || i == 18 || i == 23
  }

  /** A canonical version-four UUID: lower case, dashes in place. */
  predicate IsUuid(s: bytes) {
    && |s| == 36
    && (forall i :: 0 <= i < 36 ==> if IsDash(i) then s[i] == 45 else IsHexDigit(s[i]))
    && s[14] == 52
    && (s[19] == 56 || s[19] == 57 || s[19] == 97 || s[19] == 98)
  }

  function Undashed(s: bytes): (r: bytes)
    requires IsUuid(s)
    ensures |r| == 32 && IsHex(r)
  {
    s[..8] + s[9..13] + s[14..18] + s[19..23] + s[24..]
  }

  predicate IsDigest(s: bytes) {
    |s| == 64 && IsHex(s)
  }

  predicate Digits(s: bytes, from: nat, to: nat)
    requires from <= to <= |s|
  {
    forall i :: from <= i < to ==> 48 <= s[i] <= 57
  }

  /** `YYYY-MM-DDTHH:MM:SS.ffffffZ`, as a spelling. */
  predicate IsTimeSpelling(s: bytes) {
    && |s| == 27
    && Digits(s, 0, 4) && s[4] == 45 && Digits(s, 5, 7) && s[7] == 45 && Digits(s, 8, 10) && s[10] == 84
    && Digits(s, 11, 13) && s[13] == 58 && Digits(s, 14, 16) && s[16] == 58 && Digits(s, 17, 19) && s[19] == 46
    && Digits(s, 20, 26) && s[26] == 90
  }

  // ---------- the frame ----------

  datatype Record = Record(installation: bytes, producer: bytes, event: bytes, session: bytes, sequence: int,
                           kind: bytes, at: bytes, payloadHash: bytes, previousHash: Option<bytes>)

  /** The closed set of event kinds and the calendar check of `strptime`. */
  datatype Vocabulary = Vocabulary(kinds: set<bytes>, isDate: bytes -> bool)

  predicate Bounded(v: Vocabulary) {
    forall k :: k in v.kinds ==> |k| < 256
  }

  predicate Valid(v: Vocabulary, r: Record) {
    && IsUuid(r.installation) && IsUuid(r.producer) && IsUuid(r.event) && IsUuid(r.session)
    && 1 <= r.sequence <= 9216
    && r.kind in v.kinds
    && IsTimeSpelling(r.at) && v.isDate(r.at)
    && IsDigest(r.payloadHash) && (r.previousHash.Some? ==> IsDigest(r.previousHash.value))
  }

  const MAGIC: bytes := [72, 82, 69, 49, 0, 0, 0, 1]

  /** `n.to_bytes(k, "big")`, for values that fit. */
  function BigEndian(n: nat, k: nat): (s: bytes)
    ensures |s| == k
  {
    if k == 0 then [] else BigEndian(n / 256, k - 1) + [n % 256]
  }

  function Join(parts: seq<bytes>): bytes {
    if parts == [] then [] else parts[0] + Join(parts[1..])
  }

  lemma {:induction false} JoinAppend(parts: seq<bytes>, last: bytes)
    ensures Join(parts + [last]) == Join(parts) + last
  {
    if parts == [] {
      assert [last][1..] == [];
    } else {
      assert (parts + [last])[1..] == parts[1..] + [last];
      JoinAppend(parts[1..], last);
    }
  }

  /** The parts of the frame, in order. */
  function Parts(v: Vocabulary, r: Record): (parts: seq<bytes>)
    requires Valid(v, r)
    ensures |parts| == 13
  {
    [MAGIC, FromHex(Undashed(r.installation)), FromHex(Undashed(r.producer)), FromHex(Undashed(r.event)),
     FromHex(Undashed(r.session)), BigEndian(r.sequence, 8), BigEndian(|r.kind|, 4), r.kind, BigEndian(|r.at|, 4), r.at,
     FromHex(r.payloadHash), if r.previousHash.None? then [0] else [1],
     if r.previousHash.None? then [] else FromHex(r.previousHash.value)]
  }

  /** The hashed bytes; None when `hre1_record_hash` raises. */
  function Frame(v: Vocabulary, r: Record): Option<bytes> {
    if Valid(v, r) then Some(Join(Parts(v, r))) else None
  }

  predicate UuidsValid(r: Record) {
    IsUuid(r.installation) && IsUuid(r.producer) && IsUuid(r.event) && IsUuid(r.session)
  }

  function IdentifierParts(r: Record): seq<bytes>
    requires UuidsValid(r)
  {
    [MAGIC, FromHex(Undashed(r.installation)), FromHex(Undashed(r.producer)),
     FromHex(Undashed(r.event)), FromHex(Undashed(r.session))]
  }

  /** The loop over the four identifiers. */
  method FrameIdentifiers(r: Record) returns (ok: bool, frame: bytes)
    ensures ok <==> UuidsValid(r)
    ensures ok ==> frame == Join(IdentifierParts(r))
  {
    hide IsUuid, FromHex, Undashed;
    frame := MAGIC;
    ghost var parts := [MAGIC];
    assert Join([MAGIC]) == MAGIC by { assert [MAGIC][1..] == []; }
    var identifiers := [r.installation, r.producer, r.event, r.session];
    for i := 0 to 4
      invariant frame == Join(parts) && |parts| == i + 1 && parts[0] == MAGIC
      invariant forall j :: 0 <= j < i ==> IsUuid(identifiers[j]) && parts[j + 1] == FromHex(Undashed(identifiers[j]))
    {
      if !IsUuid(identifiers[i]) {
        return false, frame;
      }
      JoinAppend(parts, FromHex(Undashed(identifiers[i])));
      parts := parts + [FromHex(Undashed(identifiers[i]))];
      frame := frame + FromHex(Undashed(identifiers[i]));
    }
    assert identifiers[0] == r.installation && identifiers[1] == r.producer
           && identifiers[2] == r.event && identifiers[3] == r.session;
    assert parts == IdentifierParts(r);
    return true, frame;
  }

  /** `hre1_record_hash` up to the final SHA-256: the frame grows in place, field by field. */
  method BuildFrame(v: Vocabulary, r: Record) returns (result: Option<bytes>)
    ensures result == Frame(v, r)
  {
    hide IsUuid, IsTimeSpelling, IsDigest, FromHex, Undashed, BigEndian, Join;
    var begun, frame := FrameIdentifiers(r);
    if !begun {
      return None;
    }
    ghost var parts := IdentifierParts(r);
    if !(1 <= r.sequence <= 9216) || r.kind !in v.kinds || !IsTimeSpelling(r.at) || !v.isDate(r.at) {
      return None;
    }
    frame := Extend(frame, parts, BigEndian(r.sequence, 8));
    parts := parts + [BigEndian(r.sequence, 8)];
    var values := [r.kind, r.at];
    ghost var before := parts;
    for i := 0 to 2
      invariant frame == Join(parts)
      invariant i == 0 ==> parts == before
      invariant i == 1 ==> parts == before + [BigEndian(|r.kind|, 4), r.kind]
      invariant i == 2 ==> parts == before + [BigEndian(|r.kind|, 4), r.kind, BigEndian(|r.at|, 4), r.at]
    {
      frame := Extend(frame, parts, BigEndian(|values[i]|, 4));
      parts := parts + [BigEndian(|values[i]|, 4)];
      frame := Extend(frame, parts, values[i]);
      parts := parts + [values[i]];
    }
    if !IsDigest(r.payloadHash) || (r.previousHash.Some? && !IsDigest(r.previousHash.value)) {
      return None;
    }
    DigestsAreEven(r);
    frame := Extend(frame, parts, FromHex(r.payloadHash));
    parts := parts + [FromHex(r.payloadHash)];
    var flag: bytes := if r.previousHash.None? then [0] else [1];
    frame := Extend(frame, parts, flag);
    parts := parts + [flag];
    var last := if r.previousHash.None? then [] else FromHex(r.previousHash.value);
    frame := Extend(frame, parts, last);
    parts := parts + [last];
    assert parts == Parts(v, r);
    return Some(frame);
  }

  lemma DigestsAreEven(r: Record)
    ensures IsDigest(r.payloadHash) ==> IsHex(r.payloadHash) && |r.payloadHash| == 64
    ensures r.previousHash.Some? && IsDigest(r.previousHash.value)
            ==> IsHex(r.previousHash.value) && |r.previousHash.value| == 64
  {
  }

  method Extend(frame: bytes, ghost parts: seq<bytes>, part: bytes) returns (longer: bytes)
    requires frame == Join(parts)
    ensures longer == Join(parts + [part])
  {
    JoinAppend(parts, part);
    longer := frame + part;
  }

  // ---------- reading a frame ----------

  function Digit(n: nat): (c: byte)
    requires n < 16
    ensures IsHexDigit(c) && Nibble(c) == n
  {
    if n < 10 then 48 + n else 87 + n
  }

  /** `bytes.hex`. */
  function ToHex(s: bytes): (r: bytes)
    ensures |r| == 2 * |s|
  {
    if s == [] then [] else [Digit(s[0] / 16), Digit(s[0] % 16)] + ToHex(s[1..])
  }

  /** Two digits give a byte, and the byte gives them back. */
  lemma PairComesBack(a: byte, b: byte)
    requires IsHexDigit(a) && IsHexDigit(b)
    ensures var n := 16 * Nibble(a) + Nibble(b);
            n < 256 && n / 16 == Nibble(a) && n % 16 == Nibble(b) && Digit(n / 16) == a && Digit(n % 16) == b
  {
  }

  lemma {:induction false} HexComesBack(s: bytes)
    requires IsHex(s) && |s| % 2 == 0
    ensures ToHex(FromHex(s)) == s
  {
    hide Digit, Nibble, IsHexDigit;
    if s != [] {
      HexComesBack(s[2..]);
      PairComesBack(s[0], s[1]);
      assert FromHex(s)[1..] == FromHex(s[2..]);
      assert s == [s[0], s[1]] + s[2..];
    }
  }

  function Dashed(hex: bytes): bytes
    requires |hex| == 32
  {
    hex[..8] + [45] + hex[8..12] + [45] + hex[12..16] + [45] + hex[16..20] + [45] + hex[20..]
  }

  lemma DashesComeBack(s: bytes)
    requires IsUuid(s)
    ensures Dashed(ToHex(FromHex(Undashed(s)))) == s
  {
    HexComesBack(Undashed(s));
    var u := Undashed(s);
    assert u[..8] == s[..8] && u[8..12] == s[9..13] && u[12..16] == s[14..18] && u[16..20] == s[19..23] && u[20..] == s[24..];
    assert s[8] == s[13] == s[18] == s[23] == 45;
    assert s == s[..8] + [s[8]] + s[9..13] + [s[13]] + s[14..18] + [s[18]] + s[19..23] + [s[23]] + s[24..];
  }

  function FromBigEndian(s: bytes): nat {
    if s == [] then 0 else FromBigEndian(s[..|s| - 1]) * 256 + s[|s| - 1]
  }

  lemma {:induction false} NumberComesBack(n: nat, k: nat)
    requires n == 0 || k > 0
    requires k == 1 ==> n < 256
    requires n < 65536
    ensures FromBigEndian(BigEndian(n, k)) == n
    decreases k
  {
    if k > 0 {
      var s := BigEndian(n, k);
      assert s[..k - 1] == BigEndian(n / 256, k - 1) && s[k - 1] == n % 256;
      NumberComesBack(n / 256, k - 1);
    }
  }

  /** How long the next part of a frame is, given the parts before it. */
  function NextLength(got: seq<bytes>): nat {
    match |got|
    case 0 => 8
    case 5 => 8
    case 6 => 4
    case 7 => FromBigEndian(got[6])
    case 8 => 4
    case 9 => FromBigEndian(got[8])
    case 10 => 32
    case 11 => 1
    case 12 => if got[11] == [1] then 32 else 0
    case _ => 16
  }

  /** The thirteen parts of a frame, cut off one after the other. */
  function CutParts(got: seq<bytes>, rest: bytes): Option<seq<bytes>>
    requires |got| <= 13
    decreases 13 - |got|
  {
    if |got| == 13 then if rest == [] then Some(got) else None
    else if NextLength(got) > |rest| then None
    else CutParts(got + [rest[..NextLength(got)]], rest[NextLength(got)..])
  }

  lemma {:induction false} PartsComeBack(parts: seq<bytes>, i: nat)
    requires |parts| == 13 && i <= 13 && forall j :: 0 <= j < 13 ==> |parts[j]| == NextLength(parts[..j])
    ensures CutParts(parts[..i], Join(parts[i..])) == Some(parts)
    decreases 13 - i
  {
    hide NextLength;
    if i == 13 {
      assert parts[..13] == parts;
    } else {
      var rest := Join(parts[i..]);
      assert parts[i..][1..] == parts[i + 1..];
      assert rest == parts[i] + Join(parts[i + 1..]);
      assert rest[..|parts[i]|] == parts[i] && rest[|parts[i]|..] == Join(parts[i + 1..]);
      assert parts[..i + 1] == parts[..i] + [parts[i]];
      PartsComeBack(parts, i + 1);
    }
  }

  /** The record that a frame was made of; None for what is no frame. */
  function ReadFrame(frame: bytes): Option<Record> {
    var cut := CutParts([], frame);
    if cut.None? then None
    else
      var p := cut.value;
      if |p| != 13 || p[0] != MAGIC || !(|p[1]| == |p[2]| == |p[3]| == |p[4]| == 16) then None
      else
        Some(Record(Dashed(ToHex(p[1])), Dashed(ToHex(p[2])), Dashed(ToHex(p[3])), Dashed(ToHex(p[4])), FromBigEndian(p[5]),
                    p[7], p[9], ToHex(p[10]), if p[11] == [0] then None else Some(ToHex(p[12]))))
  }

  lemma PartLengths(v: Vocabulary, r: Record)
    requires Bounded(v) && Valid(v, r)
    ensures var ps := Parts(v, r);
            && |ps[0]| == 8 && |ps[1]| == |ps[2]| == |ps[3]| == |ps[4]| == 16 && |ps[5]| == 8
            && |ps[6]| == 4 && FromBigEndian(ps[6]) == |ps[7]| && |ps[8]| == 4 && FromBigEndian(ps[8]) == |ps[9]|
            && |ps[10]| == 32 && |ps[11]| == 1 && |ps[12]| == (if ps[11] == [1] then 32 else 0)
  {
    hide IsUuid, Undashed, FromHex, BigEndian, FromBigEndian, IsHex, Digits;
    IdentifierLength(r.installation);
    IdentifierLength(r.producer);
    IdentifierLength(r.event);
    IdentifierLength(r.session);
    NumberComesBack(|r.kind|, 4);
    NumberComesBack(|r.at|, 4);
  }

  lemma IdentifierLength(s: bytes)
    requires IsUuid(s)
    ensures |FromHex(Undashed(s))| == 16
  {
  }

  lemma LengthsFollow(v: Vocabulary, r: Record)
    requires Bounded(v) && Valid(v, r)
    ensures var ps := Parts(v, r); forall j :: 0 <= j < 13 ==> |ps[j]| == NextLength(ps[..j])
  {
    PartLengths(v, r);
    hide Parts, Valid;
  }

  /** A reader that knows the layout alone gets every field of the record back. */
  lemma ReadBuiltFrame(v: Vocabulary, r: Record)
    requires Bounded(v) && Frame(v, r).Some?
    ensures ReadFrame(Frame(v, r).value) == Some(r)
  {
    var ps := Parts(v, r);
    LengthsFollow(v, r);
    PartsComeBack(ps, 0);
    assert ps[..0] == [] && ps[0..] == ps;
    PartLengths(v, r);
    FieldsComeBack(v, r);
    hide Parts, Valid, CutParts, Dashed, ToHex, FromBigEndian;
  }

  lemma FieldsComeBack(v: Vocabulary, r: Record)
    requires Valid(v, r)
    ensures var p := Parts(v, r);
            && p[0] == MAGIC && |p[1]| == |p[2]| == |p[3]| == |p[4]| == 16
            && Dashed(ToHex(p[1])) == r.installation && Dashed(ToHex(p[2])) == r.producer
            && Dashed(ToHex(p[3])) == r.event && Dashed(ToHex(p[4])) == r.session
            && FromBigEndian(p[5]) == r.sequence && p[7] == r.kind && p[9] == r.at && ToHex(p[10]) == r.payloadHash
            && (if p[11] == [0] then None else Some(ToHex(p[12]))) == r.previousHash
  {
    hide IsUuid, Undashed, Dashed, ToHex, FromHex, BigEndian, FromBigEndian, IsTimeSpelling, IsHex;
    IdentifierLength(r.installation);
    IdentifierLength(r.producer);
    IdentifierLength(r.event);
    IdentifierLength(r.session);
    DashesComeBack(r.installation);
    DashesComeBack(r.producer);
    DashesComeBack(r.event);
    DashesComeBack(r.session);
    NumberComesBack(r.sequence, 8);
    HexComesBack(r.payloadHash);
    if r.previousHash.Some? {
      HexComesBack(r.previousHash.value);
    }
  }

  /** The frame determines every field, the optional previous hash included. */
  lemma FrameInjective(v: Vocabulary, r: Record, q: Record)
    requires Bounded(v) && Frame(v, r).Some? && Frame(v, r) == Frame(v, q)
    ensures r == q
  {
    ReadBuiltFrame(v, r);
    ReadBuiltFrame(v, q);
  }

  // ---------- the canonical spellings ----------

  /** One character against one of a pattern: `h` a hexadecimal digit, `d` a decimal one, `v` one of 89ab, else itself. */
  predicate CharFits(c: byte, pattern: char) {
    match pattern
    case 'h' => c as char in "0123456789abcdef"
    case 'd' => c as char in "0123456789"
    case 'v' => c as char in "89ab"
    case _ => c as char == pattern
  }

  predicate Fits(s: bytes, pattern: string) {
    |s| == |pattern| && forall i :: 0 <= i < |s| ==> CharFits(s[i], pattern[i])
  }

  const UUID_PATTERN := "hhhhhhhh-hhhh-4hhh-vhhh-hhhhhhhhhhhh"

  /** The identifiers taken are exactly those of the pattern. */
  lemma UuidsFitThePattern(s: bytes)
    ensures IsUuid(s) <==> Fits(s, UUID_PATTERN)
  {
    UuidPatternAt();
    if |s| == 36 {
      hide CharFits, IsHexDigit;
      assert Fits(s, UUID_PATTERN) <==> forall i :: 0 <= i < 36 ==> CharFits(s[i], UUID_PATTERN[i]);
      forall i | 0 <= i < 36 ensures CharFits(s[i], UUID_PATTERN[i]) <==> UuidChar(s[i], i) {
        UuidCharAt(s[i], i);
      }
      UuidChars(s);
    }
  }

  predicate UuidChar(c: byte, i: nat) {
    && (if IsDash(i) then c == 45 else IsHexDigit(c)) && (i == 14 ==> c == 52)
    && (i == 19 ==> c == 56 || c == 57 || c == 97 || c == 98)
  }

  lemma UuidChars(s: bytes)
    requires |s| == 36
    ensures IsUuid(s) <==> forall i :: 0 <= i < 36 ==> UuidChar(s[i], i)
  {
    if forall i :: 0 <= i < 36 ==> UuidChar(s[i], i) {
      assert UuidChar(s[14], 14) && UuidChar(s[19], 19);
    }
  }

  lemma UuidPatternAt()
    ensures |UUID_PATTERN| == 36
    ensures forall i :: 0 <= i < 36 ==>
              UUID_PATTERN[i] == if IsDash(i) then '-' else if i == 14 then '4' else if i == 19 then 'v' else 'h'
  {
  }

  lemma UuidCharAt(c: byte, i: nat)
    requires i < 36
    ensures |UUID_PATTERN| == 36 && (CharFits(c, UUID_PATTERN[i]) <==> UuidChar(c, i))
  {
    UuidPatternAt();
  }

  const TIME_PATTERN := "dddd-dd-ddTdd:dd:dd.ddddddZ"

  lemma TimesFitThePattern(s: bytes)
    ensures IsTimeSpelling(s) <==> Fits(s, TIME_PATTERN)
  {
    TimePatternAt();
    if |s| == 27 {
      MarksAreSpelled(s);
      hide CharFits, IsTimeSpelling;
      assert Fits(s, TIME_PATTERN) <==> forall i :: 0 <= i < 27 ==> CharFits(s[i], TIME_PATTERN[i]);
      forall i | 0 <= i < 27 ensures CharFits(s[i], TIME_PATTERN[i]) <==> TimeChar(s[i], i) {
        TimeCharAt(s[i], i);
      }
      hide TimeChar;
    }
  }

  predicate TimeChar(c: byte, i: nat) {
    if i in MARKS then c == MARKS[i] else 48 <= c <= 57
  }

  lemma MarksAreSpelled(s: bytes)
    requires |s| == 27
    ensures IsTimeSpelling(s) <==> forall i :: 0 <= i < 27 ==> TimeChar(s[i], i)
  {
    if forall i :: 0 <= i < 27 ==> TimeChar(s[i], i) {
      assert TimeChar(s[4], 4) && TimeChar(s[7], 7) && TimeChar(s[10], 10) && TimeChar(s[13], 13) && TimeChar(s[16], 16);
      assert TimeChar(s[19], 19) && TimeChar(s[26], 26);
    }
  }

  /** The places of a time spelling that hold no digit. */
  const MARKS: map<int, byte> := map[4 := 45, 7 := 45, 10 := 84, 13 := 58, 16 := 58, 19 := 46, 26 := 90]

  lemma TimePatternAt()
    ensures |TIME_PATTERN| == 27
    ensures forall i :: 0 <= i < 27 ==> TIME_PATTERN[i] == if i in MARKS then MARKS[i] as char else 'd'
  {
  }

  lemma TimeCharAt(c: byte, i: nat)
    requires i < 27
    ensures CharFits(c, TIME_PATTERN[i]) <==> TimeChar(c, i)
  {
    TimePatternAt();
  }

  lemma DigestsFitThePattern(s: bytes)
    ensures IsDigest(s) <==> |s| == 64 && forall i :: 0 <= i < |s| ==> CharFits(s[i], 'h')
  {
  }

  predicate IsIdentifier(s: bytes) {
    Fits(s, UUID_PATTERN)
  }

  predicate IsHash(s: bytes) {
    |s| == 64 && forall i :: 0 <= i < |s| ==> CharFits(s[i], 'h')
  }

  /** A record is framed exactly if its fields fit their patterns, its kind and date are known and its number is one of 9216. */
  lemma FramedExactly(v: Vocabulary, r: Record)
    ensures Frame(v, r).Some? <==>
              && IsIdentifier(r.installation) && IsIdentifier(r.producer) && IsIdentifier(r.event) && IsIdentifier(r.session)
              && 1 <= r.sequence <= 9 * 1024 && r.kind in v.kinds && Fits(r.at, TIME_PATTERN) && v.isDate(r.at)
              && IsHash(r.payloadHash) && (r.previousHash.Some? ==> IsHash(r.previousHash.value))
  {
    forall s ensures IsUuid(s) <==> IsIdentifier(s) {
      UuidsFitThePattern(s);
    }
    forall s ensures IsDigest(s) <==> IsHash(s) {
      DigestsFitThePattern(s);
    }
    TimesFitThePattern(r.at);
    hide IsUuid, IsIdentifier, IsDigest, IsHash, IsTimeSpelling, Fits, Join;
  }

  lemma MagicIsSpelled()
    ensures MAGIC == Literal("HRE1") + [0, 0, 0, 1]
  {
  }
}
