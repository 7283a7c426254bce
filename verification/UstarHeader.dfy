/**
 One 512-byte USTAR header block: the single spelling the archive oracle accepts, its field
 checks and a reader (IEEE Std 1003.1-2001, pax utility, section "ustar Interchange Format").
 */
module UstarHeader {
  import opened Bytes
  import opened Numerals

  const BLOCK := 512

  // "hermes-realtime-0.0.3"
  const PREFIX: bytes := [104, 101, 114, 109, 101, 115, 45, 114, 101, 97, 108, 116, 105, 109, 101, 45, 48, 46, 48, 46, 51]
  const USTAR: bytes := [117, 115, 116, 97, 114, 0, 48, 48]
  const ROOT: bytes := [114, 111, 111, 116, 0] + Zeros(27)
  const DEVICES: bytes := Repeat(48, 7) + [0] + Repeat(48, 7) + [0]
  // "pax_global_header"
  const PAX_NAME: bytes := [112, 97, 120, 95, 103, 108, 111, 98, 97, 108, 95, 104, 101, 97, 100, 101, 114] + Zeros(83)
  const TYPE_FILE: byte := 48
  const TYPE_DIR: byte := 53
  const TYPE_GLOBAL: byte := 103

  datatype Kind = Dir | File

  datatype Member = Member(path: bytes, kind: Kind, gitMode: bytes, tarMode: nat, size: nat, digest: Option<bytes>)

  function Pad(s: bytes, n: nat): (r: bytes)
    requires |s| <= n
    ensures |r| == n
  {
    s + Zeros(n - |s|)
  }

  // ---------- names ----------

  /** The archive name of a member: prefix, path, and a final slash on directories. */
  function FullName(path: bytes, kind: Kind): bytes {
    PREFIX + (if path == [] then [] else [SLASH] + path) + (if kind == Dir then [SLASH] else [])
  }

  function PathOf(full: bytes, kind: Kind): Option<bytes> {
    if !StartsWith(full, PREFIX) || (kind == Dir && (|full| == |PREFIX| || full[|full| - 1] != SLASH)) then None
    else
      var rest := full[|PREFIX|..if kind == Dir then |full| - 1 else |full|];
      if rest == [] then Some([]) else if |rest| > 1 && rest[0] == SLASH then Some(rest[1..]) else None
  }

  lemma PathOfIsInverse(full: bytes, path: bytes, kind: Kind)
    ensures PathOf(full, kind) == Some(path) <==> full == FullName(path, kind)
  {
    var tail := if kind == Dir then [SLASH] else [];
    var middle := if path == [] then [] else [SLASH] + path;
    if full == FullName(path, kind) {
      assert full == PREFIX + middle + tail;
      Middle(PREFIX, middle, tail);
      assert kind == Dir ==> full[|full| - 1] == SLASH;
      assert full[..|PREFIX|] == PREFIX;
    }
    if PathOf(full, kind) == Some(path) {
      var rest := full[|PREFIX|..|full| - |tail|];
      assert rest == middle;
      assert full == full[..|PREFIX|] + rest + full[|full| - |tail|..];
      assert full[|full| - |tail|..] == tail;
    }
  }

  datatype Spelling = Spelling(name: bytes, prefix: bytes)

  predicate Ascii(s: bytes) {
    forall i :: 0 <= i < |s| ==> s[i] < 128
  }

  predicate GoodSplit(full: bytes, i: int) {
    0 < i < |full| && full[i] == SLASH && i <= 155 && 1 <= |full| - i - 1 <= 100
  }

  /** The greatest admissible split below `limit`. */
  function SplitBelow(full: bytes, limit: nat): (r: Option<nat>)
    requires limit <= |full|
    ensures r.Some? ==> r.value < limit && GoodSplit(full, r.value) && forall i :: r.value < i < limit ==> !GoodSplit(full, i)
    ensures r.None? ==> forall i :: 0 <= i < limit ==> !GoodSplit(full, i)
  {
    if limit == 0 then None
    else if GoodSplit(full, limit - 1) then Some(limit - 1)
    else SplitBelow(full, limit - 1)
  }

  function Spell(full: bytes): (r: Option<Spelling>)
    ensures r.Some? ==> |r.value.name| <= 100 && |r.value.prefix| <= 155
  {
    if !Ascii(full) then None
    else if |full| <= 100 then Some(Spelling(full, []))
    else
      var split := SplitBelow(full, |full|);
      if split.None? then None
      else Some(Spelling(full[split.value + 1..], full[..split.value]))
  }

  /** The descending search of `_canonical_ustar_name_prefix`. */
  method LastSplit(full: bytes) returns (found: Option<nat>)
    ensures found == SplitBelow(full, |full|)
  {
    var split := |full| - 1;
    while split >= 0
      invariant -1 <= split < |full|
      invariant SplitBelow(full, |full|) == SplitBelow(full, split + 1)
    {
      if full[split] == SLASH {
        var prefix, name := full[..split], full[split + 1..];
        if prefix != [] && |prefix| <= 155 && 1 <= |name| <= 100 {
          assert GoodSplit(full, split) && SplitBelow(full, split + 1) == Some(split);
          return Some(split);
        }
      }
      split := split - 1;
    }
    return None;
  }

  method CanonicalNamePrefix(member: Member) returns (fields: Option<Spelling>)
    ensures var spelled := Spell(FullName(member.path, member.kind));
            fields == if spelled.None? then None
                      else Some(Spelling(Pad(spelled.value.name, 100), Pad(spelled.value.prefix, 155)))
  {
    var full := FullName(member.path, member.kind);
    if !Ascii(full) {
      return None;
    }
    if |full| <= 100 {
      assert Pad([], 155) == Zeros(155);
      return Some(Spelling(Pad(full, 100), Zeros(155)));
    }
    var split := LastSplit(full);
    if split.None? {
      return None;
    }
    return Some(Spelling(Pad(full[split.value + 1..], 100), Pad(full[..split.value], 155)));
  }

  /** What a tar reader makes of the two name fields. */
  function ReadName(name: bytes, prefix: bytes): bytes {
    if StripZeros(prefix) == [] then StripZeros(name)
    else StripZeros(prefix) + [SLASH] + StripZeros(name)
  }

  /** The padded fields give the name back exactly when neither part ends in a NUL byte. */
  lemma NameReadsBack(full: bytes)
    requires Spell(full).Some?
    ensures var s := Spell(full).value;
            ReadName(Pad(s.name, 100), Pad(s.prefix, 155)) == full
            <==> !EndsInNul(s.name) && !EndsInNul(s.prefix)
  {
    var s := Spell(full).value;
    if |full| <= 100 {
      StripPadded(full, 100 - |full|);
      StripPadded([], 155);
      assert [] + Zeros(155) == Pad(s.prefix, 155);
    } else {
      assert full == s.prefix + [SLASH] + s.name && s.prefix != [];
      SplitReadsBack(s.name, s.prefix);
    }
  }

  lemma SplitReadsBack(name: bytes, prefix: bytes)
    requires |name| <= 100 && 0 < |prefix| <= 155
    ensures ReadName(Pad(name, 100), Pad(prefix, 155)) == prefix + [SLASH] + name
            <==> !EndsInNul(name) && !EndsInNul(prefix)
  {
    var n, p := StripZeros(Pad(name, 100)), StripZeros(Pad(prefix, 155));
    assert n == name <==> !EndsInNul(name) by { StripPadded(name, 100 - |name|); }
    assert p == prefix <==> !EndsInNul(prefix) by { StripPadded(prefix, 155 - |prefix|); }
    assert n == name || |n| < |name| by { ShorterUnlessSame(name, 100 - |name|); }
    assert p == prefix || |p| < |prefix| by { ShorterUnlessSame(prefix, 155 - |prefix|); }
    var read := ReadName(Pad(name, 100), Pad(prefix, 155));
    hide Pad, StripZeros, Zeros;
    if n != name || p != prefix {
      assert |read| < |prefix + [SLASH] + name|;
    }
  }

  lemma ShorterUnlessSame(s: bytes, n: nat)
    ensures StripZeros(s + Zeros(n)) == s || |StripZeros(s + Zeros(n))| < |s|
  {
    StripShortens(s, n);
    var r := StripZeros(s + Zeros(n));
    if |r| == |s| {
      assert (s + Zeros(n))[..|s|] == s;
      assert (r + Zeros(n))[..|s|] == r;
    }
  }

  lemma {:induction false} StripShortens(s: bytes, n: nat)
    ensures |StripZeros(s + Zeros(n))| <= |s|
    decreases n
  {
    if n == 0 {
      assert s + Zeros(0) == s;
    } else {
      var t := s + Zeros(n);
      assert t[..|t| - 1] == s + Zeros(n - 1);
      StripShortens(s, n - 1);
    }
  }

  predicate NulFree(s: bytes) {
    forall i :: 0 <= i < |s| ==> s[i] != 0
  }

  /** The members a tar reader can name again: neither stored name part ends in a NUL byte. */
  predicate Recoverable(member: Member) {
    var s := Spell(FullName(member.path, member.kind));
    s.Some? && !EndsInNul(s.value.name) && !EndsInNul(s.value.prefix)
  }

  lemma NulFreeIsRecoverable(member: Member)
    requires NulFree(member.path) && Spell(FullName(member.path, member.kind)).Some?
    ensures Recoverable(member)
  {
    assert NulFree(FullName(member.path, member.kind));
  }

  /** A final NUL moves no split, unless it makes the last part too long. */
  lemma {:induction false} NulKeepsSplits(full: bytes, limit: nat)
    requires limit <= |full| && full != [] && full[|full| - 1] != SLASH
    ensures var r, t := SplitBelow(full, limit), SplitBelow(full + [0], limit);
            t.Some? ==> r == t
    decreases limit
  {
    if limit > 0 {
      NulKeepsSplits(full, limit - 1);
      var i := limit - 1;
      assert (full + [0])[i] == full[i];
      if GoodSplit(full, i) && !GoodSplit(full + [0], i) {
        assert |full| - i == 101;
        assert forall j :: 0 <= j < i ==> !GoodSplit(full + [0], j);
      }
    }
  }

  /**
   The padding hides a final NUL: a file's path and the same path with a NUL behind it have the same name
   fields, exactly if the longer name has a spelling and the shorter one does not just fill its field.
   */
  lemma NulTailIsInvisible(path: bytes)
    requires path != [] && path[|path| - 1] != SLASH && Spell(FullName(path, File)).Some?
    ensures var s, t := Spell(FullName(path, File)), Spell(FullName(path + [0], File));
            t.Some? && Pad(s.value.name, 100) == Pad(t.value.name, 100) && Pad(s.value.prefix, 155) == Pad(t.value.prefix, 155)
            <==> t.Some? && |FullName(path, File)| != 100
  {
    var full := FullName(path, File);
    assert FullName(path + [0], File) == full + [0];
    assert full[|full| - 1] == path[|path| - 1];
    var s, t := Spell(full), Spell(full + [0]);
    if t.Some? && |full| >= 100 {
      LongNulTail(full);
    }
  }

  lemma LongNulTail(full: bytes)
    requires |full| >= 100 && full[0] != 0 && full[|full| - 1] != SLASH && Spell(full).Some? && Spell(full + [0]).Some?
    ensures var s, t := Spell(full).value, Spell(full + [0]).value;
            Pad(s.name, 100) == Pad(t.name, 100) && Pad(s.prefix, 155) == Pad(t.prefix, 155) <==> |full| != 100
  {
    var long := full + [0];
    var split := SplitBelow(long, |long|).value;
    assert long[|full|] == 0 && SplitBelow(long, |full|) == Some(split);
    NulKeepsSplits(full, |full|);
    hide SplitBelow, Ascii;
    var s, t := Spell(full).value, Spell(long).value;
    assert t == Spelling(long[split + 1..], long[..split]);
    if |full| == 100 {
      assert Pad(t.prefix, 155)[0] == full[0] && Pad(s.prefix, 155)[0] == 0;
    } else {
      assert long[split + 1..] == full[split + 1..] + [0] && long[..split] == full[..split];
      assert Pad(t.name, 100) == Pad(s.name, 100);
    }
  }

  // ---------- the block ----------

  function Front(name: bytes, mode: nat, size: nat, mtime: nat): bytes {
    name + (OctalField(mode, 8) + (OctalField(0, 8) + (OctalField(0, 8) + (OctalField(size, 12) + OctalField(mtime, 12)))))
  }

  function Back(kind: byte, prefix: bytes): bytes {
    [kind] + (Zeros(100) + (USTAR + (ROOT + (ROOT + (DEVICES + (prefix + Zeros(12)))))))
  }

  function Checksum(front: bytes, back: bytes): nat {
    Sum(front) + 32 * 8 + Sum(back)
  }

  function Block(name: bytes, mode: nat, size: nat, mtime: nat, kind: byte, prefix: bytes): bytes {
    var front, back := Front(name, mode, size, mtime), Back(kind, prefix);
    front + OctalField(Checksum(front, back), 8) + back
  }

  predicate BlockFits(name: bytes, mode: nat, size: nat, mtime: nat, prefix: bytes) {
    |name| == 100 && |prefix| == 155 && Fits(mode, 8) && Fits(size, 12) && Fits(mtime, 12)
  }

  lemma ZeroFits()
    ensures OctalField(0, 8) == Repeat(48, 7) + [0]
    ensures Fits(0, 8)
  {
    assert Repeat(48, 6) + [48] == Repeat(48, 7);
  }

  lemma ChecksumFits(front: bytes, back: bytes)
    requires |front| + |back| <= BLOCK
    ensures Fits(Checksum(front, back), 8)
  {
    SumBound(front);
    SumBound(back);
    assert Power8(7) == 2097152 by {
      assert Power8(3) == 512;
      assert Power8(5) == 32768;
    }
    NumeralFits(Checksum(front, back), 7);
  }

  lemma BlockLength(name: bytes, mode: nat, size: nat, mtime: nat, kind: byte, prefix: bytes)
    requires BlockFits(name, mode, size, mtime, prefix)
    ensures |Front(name, mode, size, mtime)| == 148 && |Back(kind, prefix)| == 356
    ensures |Block(name, mode, size, mtime, kind, prefix)| == BLOCK
  {
    ZeroFits();
    ChecksumFits(Front(name, mode, size, mtime), Back(kind, prefix));
  }

  /** The slice comparisons the oracle makes on the first 148 bytes, for any expected field values. */
  predicate FrontMatches(h: bytes, name: bytes, mode: bytes, size: bytes, mtime: bytes)
    requires |h| == BLOCK
  {
    && h[..100] == name
    && h[100..108] == mode
    && h[108..116] == OctalField(0, 8)
    && h[116..124] == OctalField(0, 8)
    && h[124..136] == size
    && h[136..148] == mtime
  }

  predicate BackMatches(h: bytes, kind: byte, prefix: bytes)
    requires |h| == BLOCK
  {
    && h[156..157] == [kind]
    && h[157..257] == Zeros(100)
    && h[257..265] == USTAR
    && h[265..297] == ROOT
    && h[297..329] == ROOT
    && h[329..345] == DEVICES
    && h[345..500] == prefix
    && h[500..512] == Zeros(12)
  }

  function Calculated(h: bytes): nat
    requires |h| == BLOCK
  {
    Sum(h[..148]) + 32 * 8 + Sum(h[156..])
  }

  lemma FrontSlices(h: bytes, name: bytes, mode: nat, size: nat, mtime: nat)
    requires |h| == BLOCK
    ensures FrontMatches(h, name, OctalField(mode, 8), OctalField(size, 12), OctalField(mtime, 12))
            <==> |name| == 100 && Fits(mode, 8) && Fits(size, 12) && Fits(mtime, 12)
                 && h[..148] == Front(name, mode, size, mtime)
  {
    ZeroFits();
    if |name| == 100 && Fits(mode, 8) && Fits(size, 12) && Fits(mtime, 12) {
      hide OctalField;
      var m, z, s, t := OctalField(mode, 8), OctalField(0, 8), OctalField(size, 12), OctalField(mtime, 12);
      Peel(h, 124, 136, 148, s, t);
      Peel(h, 116, 124, 148, z, s + t);
      Peel(h, 108, 116, 148, z, z + (s + t));
      Peel(h, 100, 108, 148, m, z + (z + (s + t)));
      Peel(h, 0, 100, 148, name, m + (z + (z + (s + t))));
    }
  }

  /** Comparing a stretch with a concatenation is comparing its two parts. */
  lemma Peel(h: bytes, lo: nat, mid: nat, hi: nat, x: bytes, y: bytes)
    requires lo <= mid <= hi <= |h| && |x| == mid - lo
    ensures h[lo..hi] == x + y <==> h[lo..mid] == x && h[mid..hi] == y
  {
    assert h[lo..hi] == h[lo..mid] + h[mid..hi];
    if h[lo..hi] == x + y {
      assert h[lo..mid] == h[lo..hi][..|x|] == x;
      assert h[mid..hi] == h[lo..hi][|x|..] == y;
    }
  }

  lemma BackSlices(h: bytes, kind: byte, prefix: bytes)
    requires |h| == BLOCK
    ensures BackMatches(h, kind, prefix) <==> |prefix| == 155 && h[156..] == Back(kind, prefix)
  {
    assert h[156..] == h[156..512];
    if |prefix| == 155 {
      var rest := prefix + Zeros(12);
      Peel(h, 345, 500, 512, prefix, Zeros(12));
      Peel(h, 329, 345, 512, DEVICES, rest);
      Peel(h, 297, 329, 512, ROOT, DEVICES + rest);
      Peel(h, 265, 297, 512, ROOT, ROOT + (DEVICES + rest));
      Peel(h, 257, 265, 512, USTAR, ROOT + (ROOT + (DEVICES + rest)));
      Peel(h, 157, 257, 512, Zeros(100), USTAR + (ROOT + (ROOT + (DEVICES + rest))));
      Peel(h, 156, 157, 512, [kind], Zeros(100) + (USTAR + (ROOT + (ROOT + (DEVICES + rest)))));
    }
  }

  /** Passing every slice comparison and the checksum comparison is being the printed block. */
  lemma MatchesIsBlock(h: bytes, name: bytes, mode: nat, size: nat, mtime: nat, kind: byte, prefix: bytes)
    requires |h| == BLOCK
    ensures (FrontMatches(h, name, OctalField(mode, 8), OctalField(size, 12), OctalField(mtime, 12))
             && BackMatches(h, kind, prefix)
             && h[148..156] == OctalField(Calculated(h), 8))
            <==> BlockFits(name, mode, size, mtime, prefix) && h == Block(name, mode, size, mtime, kind, prefix)
  {
    FrontSlices(h, name, mode, size, mtime);
    BackSlices(h, kind, prefix);
    assert h == h[..148] + h[148..156] + h[156..];
    if BlockFits(name, mode, size, mtime, prefix) && h == Block(name, mode, size, mtime, kind, prefix) {
      BlockLength(name, mode, size, mtime, kind, prefix);
      assert h[..148] == Front(name, mode, size, mtime);
      assert h[156..] == Back(kind, prefix);
    }
  }

  // ---------- the two header checks ----------

  /** `rstrip(b"\0 ")`. */
  function StripNulSpace(s: bytes): bytes
    decreases |s|
  {
    if s != [] && (s[|s| - 1] == 0 || s[|s| - 1] == 32) then StripNulSpace(s[..|s| - 1]) else s
  }

  function TypeOf(kind: Kind): byte {
    if kind == Dir then TYPE_DIR else TYPE_FILE
  }

  /** `int(stored, 8) == value`, for stored checksums written in octal digits alone. */
  predicate ReadsAs(stored: bytes, value: nat) {
    IsNumeral(stored, 8) && Value(stored, 8) == value
  }

  /** `_validate_raw_member_header`: true when no check refuses. */
  predicate MemberHeaderValid(h: bytes, member: Member, mtime: nat) {
    var spelled := Spell(FullName(member.path, member.kind));
    && |h| == BLOCK
    && ReadsAs(StripNulSpace(h[148..156]), Calculated(h))
    && h[148..156] == OctalField(Calculated(h), 8)
    && spelled.Some?
    && FrontMatches(h, Pad(spelled.value.name, 100), OctalField(member.tarMode, 8),
                    OctalField(member.size, 12), OctalField(mtime, 12))
    && BackMatches(h, TypeOf(member.kind), Pad(spelled.value.prefix, 155))
  }

  predicate MemberFits(member: Member, mtime: nat) {
    Spell(FullName(member.path, member.kind)).Some? && Fits(member.tarMode, 8) && Fits(member.size, 12) && Fits(mtime, 12)
  }

  function MemberHeader(member: Member, mtime: nat): bytes
    requires MemberFits(member, mtime)
  {
    var s := Spell(FullName(member.path, member.kind)).value;
    Block(Pad(s.name, 100), member.tarMode, member.size, mtime, TypeOf(member.kind), Pad(s.prefix, 155))
  }

  lemma StoredChecksumParses(field: bytes, value: nat)
    requires field == OctalField(value, 8)
    ensures IsNumeral(StripNulSpace(field), 8) && Value(StripNulSpace(field), 8) == value
  {
    ReadOctalField(value, 8);
    assert StripNulSpace(field) == StripNulSpace(field[..|field| - 1]);
  }

  /** The member check accepts one 512-byte block per member and timestamp, and none when a field does not fit. */
  lemma MemberHeaderIsUnique(h: bytes, member: Member, mtime: nat)
    ensures MemberHeaderValid(h, member, mtime) <==> MemberFits(member, mtime) && h == MemberHeader(member, mtime)
    ensures MemberFits(member, mtime) ==> |MemberHeader(member, mtime)| == BLOCK
  {
    var spelled := Spell(FullName(member.path, member.kind));
    if spelled.Some? {
      var name, prefix := Pad(spelled.value.name, 100), Pad(spelled.value.prefix, 155);
      if MemberFits(member, mtime) {
        BlockLength(name, member.tarMode, member.size, mtime, TypeOf(member.kind), prefix);
      }
      if |h| == BLOCK {
        MatchesIsBlock(h, name, member.tarMode, member.size, mtime, TypeOf(member.kind), prefix);
        if h[148..156] == OctalField(Calculated(h), 8) {
          StoredChecksumParses(h[148..156], Calculated(h));
        }
      }
    }
  }

  /** `_validate_global_pax_header` for a record of `size` bytes. */
  predicate GlobalHeaderValid(h: bytes, size: nat, mtime: nat) {
    && |h| == BLOCK
    && FrontMatches(h, PAX_NAME, Repeat(48, 4) + [54, 54, 54, 0], OctalField(size, 12), OctalField(mtime, 12))
    && h[148..156] == OctalField(Calculated(h), 8)
    && h[156..157] == [TYPE_GLOBAL]
    && h[157..257] == Zeros(100)
    && h[257..265] == USTAR
    && h[265..297] == ROOT
    && h[297..329] == ROOT
    && h[329..345] == DEVICES
    && h[345..512] == Zeros(167)
  }

  function GlobalHeader(size: nat, mtime: nat): bytes {
    Block(PAX_NAME, 438, size, mtime, TYPE_GLOBAL, Zeros(155))
  }

  lemma GlobalHeaderIsUnique(h: bytes, size: nat, mtime: nat)
    ensures GlobalHeaderValid(h, size, mtime) <==> Fits(size, 12) && Fits(mtime, 12) && h == GlobalHeader(size, mtime)
    ensures Fits(size, 12) && Fits(mtime, 12) ==> |GlobalHeader(size, mtime)| == BLOCK
  {
    hide Block, Calculated, OctalField, Repeat;
    PaxModeSpelling();
    if Fits(size, 12) && Fits(mtime, 12) {
      BlockLength(PAX_NAME, 438, size, mtime, TYPE_GLOBAL, Zeros(155));
    }
    if |h| == BLOCK {
      MatchesIsBlock(h, PAX_NAME, 438, size, mtime, TYPE_GLOBAL, Zeros(155));
      Peel(h, 345, 500, 512, Zeros(155), Zeros(12));
      assert Zeros(155) + Zeros(12) == Zeros(167);
    }
  }

  lemma PaxModeSpelling()
    ensures OctalField(438, 8) == Repeat(48, 4) + [54, 54, 54, 0] && Fits(438, 8)
  {
    assert Numeral(6, 8) == [54];
    assert Numeral(54, 8) == [54] + [54];
    assert Numeral(438, 8) == [54, 54] + [54];
  }

  // ---------- what an accepted block says ----------

  /** The checksum field gives the sum of all 512 bytes, the field itself read as eight spaces. */
  predicate SumStored(h: bytes) {
    |h| == BLOCK && ReadOctal(h[148..156]) == Some(Sum(h[..148] + Repeat(32, 8) + h[156..]))
  }

  lemma {:induction false} SumOfRepeat(b: byte, n: nat)
    ensures Sum(Repeat(b, n)) == b * n
  {
    if n > 0 {
      assert Repeat(b, n)[..n - 1] == Repeat(b, n - 1);
      SumOfRepeat(b, n - 1);
    }
  }

  lemma StoredSum(h: bytes)
    requires |h| == BLOCK && h[148..156] == OctalField(Calculated(h), 8)
    ensures SumStored(h)
  {
    ReadOctalField(Calculated(h), 8);
    SumOfRepeat(32, 8);
    SumConcat(h[..148] + Repeat(32, 8), h[156..]);
    SumConcat(h[..148], Repeat(32, 8));
  }

  /** An accepted header of either kind carries its own sum, as POSIX defines it. */
  lemma AcceptedHeadersCarryTheirSum(h: bytes, member: Member, size: nat, mtime: nat)
    requires MemberHeaderValid(h, member, mtime) || GlobalHeaderValid(h, size, mtime)
    ensures SumStored(h)
  {
    StoredSum(h);
  }

  /** Both fields read as zero. */
  predicate ZeroNumbers(h: bytes, lo: nat, mid: nat, hi: nat)
    requires lo <= mid <= hi <= |h|
  {
    ReadOctal(h[lo..mid]) == Some(0) && ReadOctal(h[mid..hi]) == Some(0)
  }

  /**
   What a reader that knows only the format makes of the fixed fields: the magic and version of ustar, owner
   and group 0 and "root", no link, no device and nothing in the rest.
   */
  predicate FixedFields(h: bytes) {
    && |h| == BLOCK
    && h[257..263] == Literal("ustar") + [0] && h[263..265] == Literal("00")
    && ZeroNumbers(h, 108, 116, 124) && ZeroNumbers(h, 329, 337, 345)
    && StripZeros(h[265..297]) == Literal("root") && StripZeros(h[297..329]) == Literal("root")
    && AllZero(h[157..257]) && AllZero(h[500..512])
  }

  /** The constants, spelled out. */
  lemma MagicSpelled()
    ensures USTAR[..6] == Literal("ustar") + [0] && USTAR[6..] == Literal("00") && |USTAR| == 8
    ensures PREFIX == Literal("hermes-realtime-0.0.3")
  {
  }

  lemma RootSpelled()
    ensures StripZeros(ROOT) == Literal("root")
  {
    assert ROOT == Literal("root") + Zeros(28);
    StripPadded(Literal("root"), 28);
  }

  lemma PaxNameSpelled()
    ensures StripZeros(PAX_NAME) == Literal("pax_global_header")
  {
    assert PAX_NAME == Literal("pax_global_header") + Zeros(83);
    StripPadded(Literal("pax_global_header"), 83);
  }

  lemma ZerosSpelled()
    ensures DEVICES == OctalField(0, 8) + OctalField(0, 8) && |OctalField(0, 8)| == 8 && ReadOctal(OctalField(0, 8)) == Some(0)
  {
    ZeroFits();
    ReadOctalField(0, 8);
  }

  lemma BackIsFixed(h: bytes)
    requires |h| == BLOCK && h[157..257] == Zeros(100) && h[257..265] == USTAR && h[265..297] == ROOT && h[297..329] == ROOT
    requires h[329..345] == DEVICES && h[500..512] == Zeros(12)
    requires h[108..116] == OctalField(0, 8) && h[116..124] == OctalField(0, 8)
    ensures FixedFields(h)
  {
    MagicSpelled();
    RootSpelled();
    ZerosSpelled();
    hide OctalField, ReadOctal, StripZeros, Literal;
    assert h[257..263] == h[257..265][..6] && h[263..265] == h[257..265][6..];
    assert h[329..337] == h[329..345][..8] && h[337..345] == h[329..345][8..];
  }

  /** What the format says of an accepted header: its fixed fields, its type, and the numbers it was checked against. */
  lemma AcceptedHeadersAreUstar(h: bytes, member: Member, size: nat, mtime: nat)
    requires MemberHeaderValid(h, member, mtime) || GlobalHeaderValid(h, size, mtime)
    ensures FixedFields(h) && ReadOctal(h[136..148]) == Some(mtime)
    ensures MemberHeaderValid(h, member, mtime) ==>
              h[156] as char == (if member.kind == Dir then '5' else '0') && ReadOctal(h[100..108]) == Some(member.tarMode)
              && ReadOctal(h[124..136]) == Some(member.size)
    ensures GlobalHeaderValid(h, size, mtime) ==>
              h[156] as char == 'g' && StripZeros(h[..100]) == Literal("pax_global_header") && ReadOctal(h[100..108]) == Some(438)
              && ReadOctal(h[124..136]) == Some(size)
  {
    PaxNameSpelled();
    PaxModeSpelling();
    assert h[156..157] == [h[156]];
    assert h[500..512] == Zeros(12) by {
      assert GlobalHeaderValid(h, size, mtime) ==> h[500..512] == h[345..512][155..];
    }
    BackIsFixed(h);
    ReadOctalField(mtime, 12);
    ReadOctalField(438, 8);
    ReadOctalField(size, 12);
    ReadOctalField(member.tarMode, 8);
    ReadOctalField(member.size, 12);
    hide FixedFields, OctalField, ReadOctal, Calculated, ReadsAs, StripNulSpace, StripZeros, Literal;
  }

  /** A slash with 1 to 155 bytes before it and 1 to 100 after it. */
  predicate Divides(full: bytes, i: int) {
    1 <= i <= 155 && |full| - 101 <= i <= |full| - 2 && full[i] as char == '/'
  }

  /** A name is spelled exactly if it is ASCII and is short or has a slash to divide it; it is divided at the last. */
  lemma SpelledExactly(full: bytes)
    ensures Spell(full).Some? <==> (forall k :: 0 <= k < |full| ==> full[k] < 128) && (|full| <= 100 || exists i :: Divides(full, i))
    ensures Spell(full).Some? && |full| <= 100 ==> Spell(full).value == Spelling(full, [])
    ensures Spell(full).Some? && |full| > 100 ==>
              var i := |Spell(full).value.prefix|;
              Divides(full, i) && Spell(full).value == Spelling(full[i + 1..], full[..i]) && forall j :: j > i ==> !Divides(full, j)
  {
    assert forall i :: Divides(full, i) <==> GoodSplit(full, i);
    hide Divides, GoodSplit;
    if exists i :: Divides(full, i) {
      var i :| Divides(full, i);
      assert GoodSplit(full, i) && 0 <= i < |full| by { DividesInside(full, i); }
    }
    forall j | Divides(full, j) ensures 0 <= j < |full| {
      DividesInside(full, j);
    }
    assert SplitBelow(full, |full|).Some? ==> Divides(full, SplitBelow(full, |full|).value);
  }

  lemma DividesInside(full: bytes, i: int)
    requires Divides(full, i)
    ensures 0 <= i < |full|
  {
  }

  /** A number fits its field exactly if its octal digits leave room for the final NUL. */
  lemma FitsExactly(value: nat)
    ensures Fits(value, 8) <==> value < 0x20_0000
    ensures Fits(value, 12) <==> value < 0x2_0000_0000
  {
    assert Power8(4) == 4096;
    assert Power8(7) == 0x20_0000;
    assert Power8(10) == 0x4000_0000;
    DigitsBelow(value, 7);
    DigitsBelow(value, 11);
  }

  lemma {:induction false} DigitsBelow(n: nat, k: nat)
    requires 1 <= k
    ensures |Numeral(n, 8)| <= k <==> n < Power8(k)
  {
    if n >= 8 && k > 1 {
      DigitsBelow(n / 8, k - 1);
    }
  }

  /** The name that the format puts together from the two name fields. */
  function JoinedName(h: bytes): bytes
    requires |h| == BLOCK
  {
    var name, prefix := StripZeros(h[..100]), StripZeros(h[345..500]);
    if prefix == [] then name else prefix + Literal("/") + name
  }

  /** An accepted header names its member: the release's directory, the path, and a slash if it is a directory. */
  lemma AcceptedHeadersNameTheirMember(h: bytes, member: Member, mtime: nat)
    requires MemberHeaderValid(h, member, mtime) && NulFree(member.path)
    ensures JoinedName(h)
            == Literal("hermes-realtime-0.0.3") + (if member.path == [] then [] else Literal("/") + member.path)
               + (if member.kind == Dir then Literal("/") else [])
  {
    hide Calculated, ReadsAs, StripNulSpace, OctalField;
    NulFreeIsRecoverable(member);
    NameReadsBack(FullName(member.path, member.kind));
    assert Literal("/") == [SLASH];
    MagicSpelled();
  }

  // ---------- what a block fixes ----------

  /** The fields of a member as its header block stores them. */
  datatype Fields = Fields(name: bytes, prefix: bytes, kind: Kind, mode: nat, size: nat)

  function StoredFields(member: Member): Option<Fields> {
    var s := Spell(FullName(member.path, member.kind));
    if s.None? then None
    else Some(Fields(Pad(s.value.name, 100), Pad(s.value.prefix, 155), member.kind, member.tarMode, member.size))
  }

  /** The fields can be read off the block. */
  lemma HeaderShowsFields(member: Member, mtime: nat)
    requires MemberFits(member, mtime)
    ensures StoredFields(member).Some? && |MemberHeader(member, mtime)| == BLOCK
    ensures var f, h := StoredFields(member).value, MemberHeader(member, mtime);
            && h[..100] == f.name && h[345..500] == f.prefix && h[156] == TypeOf(f.kind)
            && ReadOctal(h[100..108]) == Some(f.mode) && ReadOctal(h[124..136]) == Some(f.size)
  {
    var h := MemberHeader(member, mtime);
    MemberHeaderIsUnique(h, member, mtime);
    hide MemberHeader, OctalField, Calculated;
    assert h[156] == h[156..157][0];
    ReadOctalField(member.tarMode, 8);
    ReadOctalField(member.size, 12);
  }

  /** Two members have the same header at one time exactly if they store the same fields. */
  lemma HeaderIsItsFields(m: Member, m': Member, mtime: nat)
    requires MemberFits(m, mtime)
    ensures MemberFits(m', mtime) && MemberHeader(m', mtime) == MemberHeader(m, mtime)
            <==> StoredFields(m') == StoredFields(m)
  {
    HeaderShowsFields(m, mtime);
    if MemberFits(m', mtime) {
      HeaderShowsFields(m', mtime);
    }
    hide Block, ReadOctal, Spell;
  }

  // ---------- reading a block back ----------

  /** The fields of a member that its header block carries. */
  datatype View = View(path: bytes, kind: Kind, tarMode: nat, size: nat)

  function ViewOf(member: Member): View {
    View(member.path, member.kind, member.tarMode, member.size)
  }

  /** A reader that knows no manifest. */
  function ReadBlock(h: bytes): Option<View>
    requires |h| == BLOCK
  {
    if h[156] != TYPE_DIR && h[156] != TYPE_FILE then None
    else
      var kind := if h[156] == TYPE_DIR then Dir else File;
      var path := PathOf(ReadName(h[..100], h[345..500]), kind);
      var mode, size := ReadOctal(h[100..108]), ReadOctal(h[124..136]);
      if path.None? || mode.None? || size.None? then None
      else Some(View(path.value, kind, mode.value, size.value))
  }

  /** A header gives its member back exactly when the member is recoverable; the size always comes back. */
  lemma ReadMemberHeader(member: Member, mtime: nat)
    requires MemberFits(member, mtime)
    ensures |MemberHeader(member, mtime)| == BLOCK
    ensures ReadBlock(MemberHeader(member, mtime)) == Some(ViewOf(member)) <==> Recoverable(member)
    ensures ReadOctal(MemberHeader(member, mtime)[124..136]) == Some(member.size)
  {
    var h := MemberHeader(member, mtime);
    HeaderShowsFields(member, mtime);
    hide MemberHeader, ReadOctal;
    var full := FullName(member.path, member.kind);
    NameReadsBack(full);
    PathOfIsInverse(ReadName(h[..100], h[345..500]), member.path, member.kind);
  }
}
