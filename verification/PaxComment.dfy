/**
 The global pax record `<length> comment=<oid>\n`, whose decimal length counts itself
 (IEEE Std 1003.1-2001, pax utility, section "pax Extended Header").
 */
module PaxComment {
  import opened Bytes
  import opened Numerals

  const SPACE: byte := 32
  const NEWLINE: byte := 10
  const COMMENT: bytes := [99, 111, 109, 109, 101, 110, 116, 61]  // "comment="

  function Body(oid: bytes): (b: bytes)
    ensures |b| == |oid| + 9
  {
    COMMENT + oid + [NEWLINE]
  }

  function Spell(length: nat, body: bytes): bytes {
    Numeral(length, 10) + [SPACE] + body
  }

  /** The length map: how long the record is once `length` is written into it. */
  function StepLength(b: nat, length: nat): nat {
    |Numeral(length, 10)| + 1 + b
  }

  predicate Rising(b: nat, length: nat) {
    9 <= b && b + 3 <= length <= 2 * b + 4 && length <= StepLength(b, length)
  }

  lemma StartRises(b: nat)
    requires 9 <= b
    ensures Rising(b, b + 3)
  {
    NumeralMonotone(10, b + 3, 10);
    assert |Numeral(10, 10)| == 2 by { assert Numeral(10 / 10, 10) == [49]; }
  }

  lemma StepRises(b: nat, length: nat)
    requires Rising(b, length)
    ensures Rising(b, StepLength(b, length))
  {
    NumeralMonotone(length, StepLength(b, length), 10);
    NumeralMonotone(length, 2 * b + 4, 10);
    NumeralLength(2 * b + 4, 10);
  }

  /** Where the iteration from `length` settles. */
  function Settled(b: nat, length: nat): (r: nat)
    requires Rising(b, length)
    ensures StepLength(b, r) == r && length <= r
    decreases 2 * b + 4 - length
  {
    StepRises(b, length);
    if StepLength(b, length) == length then length else Settled(b, StepLength(b, length))
  }

  function Canonical(oid: bytes): bytes {
    StartRises(|Body(oid)|);
    Spell(Settled(|Body(oid)|, |Body(oid)| + 3), Body(oid))
  }

  lemma {:induction false} SettledIsLeastFrom(b: nat, length: nat, l: nat)
    requires Rising(b, length) && length <= l && StepLength(b, l) == l
    ensures Settled(b, length) <= l
    decreases 2 * b + 4 - length
  {
    StepRises(b, length);
    if StepLength(b, length) != length {
      NumeralMonotone(length, l, 10);
      SettledIsLeastFrom(b, StepLength(b, length), l);
    }
  }

  /**
   The record states its own length, and no shorter record with this comment does: where two
   self-consistent lengths exist, the canonical record is the shorter one.
   */
  lemma CanonicalIsLeastSelfDescribing(oid: bytes)
    ensures Canonical(oid) == Spell(|Canonical(oid)|, Body(oid))
    ensures forall l: nat {:trigger Spell(l, Body(oid))} ::
              |Spell(l, Body(oid))| == l ==> |Canonical(oid)| <= l
  {
    var b := |Body(oid)|;
    StartRises(b);
    forall l: nat {:trigger Spell(l, Body(oid))} | |Spell(l, Body(oid))| == l
      ensures |Canonical(oid)| <= l
    {
      NumeralMonotone(10, l, 10);
      assert |Numeral(10, 10)| == 2 by { assert Numeral(10 / 10, 10) == [49]; }
      SettledIsLeastFrom(b, b + 3, l);
    }
  }

  /** Being self-describing alone would leave two spellings: here 99 and 100 bytes both agree with themselves. */
  lemma TwoSelfDescribingLengths(oid: bytes)
    requires |oid| == 87
    ensures |Spell(99, Body(oid))| == 99 && |Spell(100, Body(oid))| == 100
    ensures |Canonical(oid)| == 99
  {
    assert Numeral(99, 10) == Numeral(9, 10) + [57];
    assert Numeral(100, 10) == Numeral(10, 10) + [48];
    assert Numeral(10, 10) == Numeral(1, 10) + [48];
    CanonicalIsLeastSelfDescribing(oid);
    var l := |Canonical(oid)|;
    assert l <= 99;
    NumeralMonotone(l, 99, 10);
    NumeralMonotone(10, l, 10);
  }

  /** The loop of `_pax_comment`, for an identifier of any length. */
  method PaxCommentLoop(oid: bytes) returns (record: bytes)
    ensures record == Canonical(oid)
  {
    var body := Body(oid);
    var length := |body| + 3;
    StartRises(|body|);
    while true
      invariant Rising(|body|, length)
      invariant Settled(|body|, |body| + 3) == Settled(|body|, length)
      decreases 2 * |body| + 4 - length
    {
      record := Spell(length, body);
      StepRises(|body|, length);
      if |record| == length {
        return;
      }
      length := |record|;
    }
  }

  datatype Parsed = Parsed(oid: bytes, size: nat)

  /** Reads one record back from the front of `data`. */
  function Read(data: bytes): Option<Parsed> {
    var space := Find(data, SPACE, 0);
    if space.None? || !IsNumeral(data[..space.value], 10) then None
    else
      var size := Value(data[..space.value], 10);
      if size > |data| || space.value + 10 > size then None
      else Some(Parsed(data[space.value + 9..size - 1], size))
  }

  lemma CommentInside(digits: bytes, oid: bytes, rest: bytes)
    ensures var data := digits + [SPACE] + (Body(oid) + rest);
            data[..|digits|] == digits && data[|digits| + 9..|digits| + 9 + |oid|] == oid
  {
    var front := digits + [SPACE] + COMMENT;
    Middle(front, oid, [NEWLINE] + rest);
    assert digits + [SPACE] + (Body(oid) + rest) == front + oid + ([NEWLINE] + rest);
  }

  lemma ReadSelfDescribing(record: bytes, oid: bytes, rest: bytes)
    requires record == Spell(|record|, Body(oid))
    ensures Read(record + rest) == Some(Parsed(oid, |record|))
  {
    hide Numeral, Find, Read, Body;
    var digits, tail := Numeral(|record|, 10), Body(oid) + rest;
    var data := digits + [SPACE] + tail;
    ValueOfNumeral(|record|, 10);
    FindFrom([], digits, SPACE, tail);
    assert [] + digits + [SPACE] + tail == data;
    CommentInside(digits, oid, rest);
    assert record + rest == data;
    assert |record| == |digits| + 1 + |Body(oid)|;
    ReadParts(data, digits, oid, |record|);
  }

  /** The digits up to the first space give the size, and the comment ends one byte before it. */
  lemma ReadParts(data: bytes, digits: bytes, oid: bytes, size: nat)
    requires Find(data, SPACE, 0) == Some(|digits|) && |digits| <= |data| && data[..|digits|] == digits
    requires IsNumeral(digits, 10) && Value(digits, 10) == size <= |data| && size == |digits| + 10 + |oid|
    requires data[|digits| + 9..|digits| + 9 + |oid|] == oid
    ensures Read(data) == Some(Parsed(oid, size))
  {
    hide Find, Value, IsNumeral;
  }

  lemma ReadCanonical(oid: bytes, rest: bytes)
    ensures Read(Canonical(oid) + rest) == Some(Parsed(oid, |Canonical(oid)|))
  {
    CanonicalIsLeastSelfDescribing(oid);
    ReadSelfDescribing(Canonical(oid), oid, rest);
  }

  /** The record, character for character. */
  lemma RecordIsSpelled(oid: bytes)
    ensures Canonical(oid) == Numeral(|Canonical(oid)|, 10) + Literal(" comment=") + oid + Literal("\n")
    ensures Numeral(|Canonical(oid)|, 10) != [] && Value(Numeral(|Canonical(oid)|, 10), 10) == |Canonical(oid)|
  {
    hide Canonical, Numeral;
    CanonicalIsLeastSelfDescribing(oid);
    ValueOfNumeral(|Canonical(oid)|, 10);
    assert Literal(" comment=") == [SPACE] + COMMENT && Literal("\n") == [NEWLINE];
    var digits := Numeral(|Canonical(oid)|, 10);
    assert digits + ([SPACE] + COMMENT) + oid + [NEWLINE] == digits + [SPACE] + (COMMENT + oid + [NEWLINE]);
  }
}
