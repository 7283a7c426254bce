/**
 Exactly which committed trees the traversal accepts, told of the tree itself: its unfolding in the object
 store is finite, every part of it is in order, and its totals are within the budgets.
 */
module TreeAcceptance {
  import opened Bytes
  import opened GitTree
  import opened TreeWalk
  import TreeWalkTheorems

  // ---------- a committed tree, unfolded ----------

  /** The entries of a tree in order, each directory with the entries of its own tree below it. */
  datatype Forest =
    | End
    | Dir(name: bytes, oid: Oid, below: Forest, rest: Forest)
    | Leaf(name: bytes, mode: bytes, oid: Oid, rest: Forest)

  /** The entries of the tree object itself. */
  function Listing(f: Forest): seq<Entry> {
    match f
    case End => []
    case Dir(name, oid, _, rest) => [Entry(MODE_DIR, name, oid)] + Listing(rest)
    case Leaf(name, mode, oid, rest) => [Entry(mode, name, oid)] + Listing(rest)
  }

  /** The tree objects below, in the order in which they come first. */
  function Oids(f: Forest): seq<Oid> {
    match f
    case End => []
    case Dir(_, oid, below, rest) => [oid] + Oids(below) + Oids(rest)
    case Leaf(_, _, _, rest) => Oids(rest)
  }

  function EntryCount(f: Forest): nat {
    match f
    case End => 0
    case Dir(_, _, below, rest) => 1 + EntryCount(below) + EntryCount(rest)
    case Leaf(_, _, _, rest) => 1 + EntryCount(rest)
  }

  /** How many directories lie below each other. */
  function Height(f: Forest): nat {
    match f
    case End => 0
    case Dir(_, _, below, rest) => if Height(below) + 1 > Height(rest) then Height(below) + 1 else Height(rest)
    case Leaf(_, _, _, rest) => Height(rest)
  }

  function BlobSize(repo: Repo, oid: Oid): nat {
    if oid in repo.blobs then |repo.blobs[oid]| else 0
  }

  function BlobTotal(repo: Repo, f: Forest): nat {
    match f
    case End => 0
    case Dir(_, _, below, rest) => BlobTotal(repo, below) + BlobTotal(repo, rest)
    case Leaf(_, _, oid, rest) => BlobSize(repo, oid) + BlobTotal(repo, rest)
  }

  function TreeSize(repo: Repo, oid: Oid): nat {
    if oid in repo.trees then |repo.trees[oid]| else 0
  }

  function TreeTotal(repo: Repo, oids: seq<Oid>): nat {
    if oids == [] then 0 else TreeTotal(repo, oids[..|oids| - 1]) + TreeSize(repo, oids[|oids| - 1])
  }

  // ---------- what must be in order ----------

  /** The object under this name is a tree of these entries, and has the name as its hash. */
  predicate Stored(repo: Repo, oid: Oid, es: seq<Entry>) {
    oid in repo.trees && repo.treeDigest(repo.trees[oid]) == oid && Parse(repo.trees[oid]) == Some(es)
  }

  /** A file entry whose blob is there, has its hash and is not too large. */
  predicate FileInOrder(repo: Repo, mode: bytes, oid: Oid) {
    && (mode == [49, 48, 48, 54, 52, 52] || mode == [49, 48, 48, 55, 53, 53])  // 100644, 100755
    && oid in repo.blobs && repo.blobDigest(repo.blobs[oid]) == oid && |repo.blobs[oid]| <= 4194304
  }

  predicate ObjectsInOrder(repo: Repo, f: Forest) {
    match f
    case End => true
    case Dir(_, oid, below, rest) => Stored(repo, oid, Listing(below)) && ObjectsInOrder(repo, below) && ObjectsInOrder(repo, rest)
    case Leaf(_, mode, oid, rest) => FileInOrder(repo, mode, oid) && ObjectsInOrder(repo, rest)
  }

  /** Names are text without a slash, and no two siblings fold alike. */
  predicate SiblingsInOrder(repo: Repo, es: seq<Entry>) {
    && (forall i :: 0 <= i < |es| ==> repo.isText(es[i].name) && SLASH !in es[i].name)
    && (forall i, j :: 0 <= i < j < |es| ==> Fold(repo, es[i].name) != Fold(repo, es[j].name))
  }

  predicate NamesInOrder(repo: Repo, f: Forest) {
    match f
    case End => true
    case Dir(_, _, below, rest) => SiblingsInOrder(repo, Listing(below)) && NamesInOrder(repo, below) && NamesInOrder(repo, rest)
    case Leaf(_, _, _, rest) => NamesInOrder(repo, rest)
  }

  /** Every full path is safe. */
  predicate PathsInOrder(repo: Repo, f: Forest, prefix: bytes) {
    match f
    case End => true
    case Dir(name, _, below, rest) =>
      SafePath(repo, prefix + name) && PathsInOrder(repo, below, prefix + name + [SLASH]) && PathsInOrder(repo, rest, prefix)
    case Leaf(name, _, _, rest) => SafePath(repo, prefix + name) && PathsInOrder(repo, rest, prefix)
  }

  predicate Distinct(oids: seq<Oid>) {
    forall i, j :: 0 <= i < j < |oids| ==> oids[i] != oids[j]
  }

  /** At most so many bytes of trees, and less than that before the last of them is read. */
  predicate TreesFit(repo: Repo, before: nat, oids: seq<Oid>) {
    oids != [] ==>
      before + TreeTotal(repo, oids[..|oids| - 1]) < 4194304 && before + TreeTotal(repo, oids) <= 4194304
  }

  /** The totals are within the budgets, and no tree object is reached twice. */
  predicate WithinBudgets(repo: Repo, root: Oid, f: Forest) {
    var oids := [root] + Oids(f);
    && Distinct(oids) && |oids| <= 2048 && TreesFit(repo, 0, oids)
    && EntryCount(f) <= 8192 && Height(f) <= 64
    && TreeTotal(repo, oids) + BlobTotal(repo, f) <= 33554432
  }

  /** `f` is the unfolding of the tree `root`, and everything about it is in order. */
  predicate Acceptable(repo: Repo, root: Oid, f: Forest) {
    && Stored(repo, root, Listing(f)) && ObjectsInOrder(repo, f)
    && SiblingsInOrder(repo, Listing(f)) && NamesInOrder(repo, f) && PathsInOrder(repo, f, [])
    && WithinBudgets(repo, root, f)
  }

  // ---------- which paths are safe ----------

  function Joined(parts: seq<bytes>): bytes {
    if parts == [] then [] else if |parts| == 1 then parts[0] else parts[0] + Literal("/") + Joined(parts[1..])
  }

  /** The parts of a path are the slash-free ones that join to it. */
  lemma {:induction false} PartsJoin(path: bytes)
    ensures Parts(path) != [] && Joined(Parts(path)) == path
    ensures forall part :: part in Parts(path) ==> '/' as int !in part
    decreases |path|
  {
    var h := Head(path);
    if h != path {
      var rest := path[|h| + 1..];
      PartsJoin(rest);
      assert Parts(path)[1..] == Parts(rest);
      assert Literal("/") == [SLASH] && path == h + [SLASH] + rest;
    }
  }

  /** The stem of a part is what comes before its first dot. */
  lemma {:induction false} StemEndsAtDot(part: bytes)
    ensures '.' as int !in Stem(part) && Stem(part) <= part
    ensures Stem(part) == part || part[|Stem(part)|] as char == '.'
  {
    if part != [] && part[0] != 46 {
      StemEndsAtDot(part[1..]);
      assert part == [part[0]] + part[1..];
    }
  }

  lemma {:induction false} FoldJoins(repo: Repo, a: bytes, b: bytes)
    ensures Fold(repo, a + b) == Fold(repo, a) + Fold(repo, b)
    ensures |a| == 1 ==> Fold(repo, a) == repo.fold(a[0])
  {
    if a == [] {
      assert a + b == b;
    } else {
      assert (a + b)[1..] == a[1..] + b;
      FoldJoins(repo, a[1..], b);
    }
  }

  /** con, prn, aux and nul, com1 to com9 and lpt1 to lpt9. */
  ghost predicate DeviceName(stem: bytes) {
    || stem in {Literal("con"), Literal("prn"), Literal("aux"), Literal("nul")}
    || exists c :: '1' <= c <= '9' && stem in {Literal("com" + [c]), Literal("lpt" + [c])}
  }

  lemma ReservedExactly(stem: bytes)
    ensures Reserved(stem) <==> DeviceName(stem)
  {
    assert Literal("con") == [99, 111, 110] && Literal("prn") == [112, 114, 110];
    assert Literal("aux") == [97, 117, 120] && Literal("nul") == [110, 117, 108];
    forall c | '1' <= c <= '9'
      ensures Literal("com" + [c]) == [99, 111, 109, c as int] && Literal("lpt" + [c]) == [108, 112, 116, c as int]
    {
      assert "com" + [c] == ['c', 'o', 'm', c] && "lpt" + [c] == ['l', 'p', 't', c];
    }
    if |stem| == 4 && 49 <= stem[3] <= 57 {
      var c := stem[3] as char;
      assert stem == stem[..3] + [c as int];
      assert Literal("com" + [c]) == [99, 111, 109] + [c as int] && Literal("lpt" + [c]) == [108, 112, 116] + [c as int];
      assert Reserved(stem) ==> stem in {Literal("com" + [c]), Literal("lpt" + [c])};
    }
  }

  /** A part that Windows takes for an ordinary name. */
  ghost predicate OrdinaryPart(repo: Repo, part: bytes) {
    && part != [] && part != Literal(".") && part != Literal("..")
    && part[|part| - 1] as char != ' ' && part[|part| - 1] as char != '.'
    && (forall i :: 0 <= i < |part| ==> part[i] >= 32 && part[i] as char !in "<>:\"|?*")
    && !DeviceName(Stem(Fold(repo, part)))
  }

  /** Which paths are safe: not empty, at most 1024 long, without backslash or colon, and of ordinary parts. */
  lemma SafePathExactly(repo: Repo, path: bytes)
    ensures SafePath(repo, path)
            <==> && 1 <= |path| <= 1024 && '\\' as int !in path && ':' as int !in path
                 && forall i :: 0 <= i < |Parts(path)| ==> OrdinaryPart(repo, Parts(path)[i])
  {
    hide OrdinaryPart, SafePart, Parts;
    forall i | 0 <= i < |Parts(path)| ensures SafePart(repo, Parts(path)[i]) <==> OrdinaryPart(repo, Parts(path)[i]) {
      OrdinaryIsSafe(repo, Parts(path)[i]);
    }
    if path != [] && path[0] == SLASH {
      SlashLeavesNoName(repo, path);
    }
  }

  lemma SlashLeavesNoName(repo: Repo, path: bytes)
    requires path != [] && path[0] == SLASH
    ensures Parts(path) != [] && !OrdinaryPart(repo, Parts(path)[0])
  {
    assert Head(path) == [] && Parts(path)[0] == [];
  }

  lemma OrdinaryIsSafe(repo: Repo, part: bytes)
    ensures SafePart(repo, part) <==> OrdinaryPart(repo, part)
  {
    hide Fold, Stem, Reserved, DeviceName;
    ReservedExactly(Stem(Fold(repo, part)));
    assert Literal(".") == [46] && Literal("..") == [46, 46];
    forall i | 0 <= i < |part| ensures part[i] >= 32 && part[i] as char !in "<>:\"|?*" <==> SafeChar(part[i]) {
      SafeCharExactly(part[i]);
    }
  }

  lemma SafeCharExactly(c: byte)
    ensures SafeChar(c) <==> c >= 32 && c as char !in "<>:\"|?*"
  {
    var banned := "<>:\"|?*";
    assert c as char in banned <==>
      exists k :: 0 <= k < 7 && banned[k] == c as char;
  }

  /** An entry as Git writes it, and a directory's mode. */
  lemma EntrySpelled(e: Entry)
    ensures PrintEntry(e) == e.mode + Literal(" ") + e.name + [0] + e.oid
    ensures WellFormed(e) <==> ' ' as int !in e.mode && 0 !in e.mode && 0 !in e.name && |e.oid| == 20
    ensures MODE_DIR == Literal("40000")
  {
    assert Literal(" ") == [SPACE] && Literal("40000") == [52, 48, 48, 48, 48];
  }

  // ---------- siblings, one by one ----------

  /** The names of the entries are in order and apart from those in `local`. */
  predicate NamesFrom(repo: Repo, es: seq<Entry>, local: set<bytes>) {
    es == []
    || (repo.isText(es[0].name) && SLASH !in es[0].name && Fold(repo, es[0].name) !in local
        && NamesFrom(repo, es[1..], local + {Fold(repo, es[0].name)}))
  }

  lemma {:induction false} NamesFromMeans(repo: Repo, es: seq<Entry>, local: set<bytes>)
    ensures NamesFrom(repo, es, local)
            <==> SiblingsInOrder(repo, es) && forall i :: 0 <= i < |es| ==> Fold(repo, es[i].name) !in local
    decreases |es|
  {
    hide Fold;
    if es != [] {
      var local' := local + {Fold(repo, es[0].name)};
      NamesFromMeans(repo, es[1..], local');
      assert es == [es[0]] + es[1..];
      if SiblingsInOrder(repo, es) {
        assert forall i :: 0 <= i < |es[1..]| ==> es[1..][i] == es[i + 1];
      }
      if SiblingsInOrder(repo, es[1..]) && forall i :: 0 <= i < |es[1..]| ==> Fold(repo, es[1..][i].name) !in local' {
        assert forall i :: 1 <= i < |es| ==> es[i] == es[1..][i - 1];
      }
    }
  }

  function Names(es: seq<Entry>): set<bytes> {
    set e | e in es :: e.name
  }

  lemma {:induction false} NamesAreNew(repo: Repo, es: seq<Entry>, local: set<bytes>, name: bytes)
    requires NamesFrom(repo, es, local) && Fold(repo, name) in local
    ensures name !in Names(es)
  {
    NamesFromMeans(repo, es, local);
    hide Fold;
  }

  // ---------- totals ----------

  lemma {:induction false} TotalJoins(repo: Repo, a: seq<Oid>, b: seq<Oid>)
    ensures TreeTotal(repo, a + b) == TreeTotal(repo, a) + TreeTotal(repo, b)
    decreases |b|
  {
    if b == [] {
      assert a + b == a;
    } else {
      assert (a + b)[..|a + b| - 1] == a + b[..|b| - 1];
      TotalJoins(repo, a, b[..|b| - 1]);
    }
  }

  lemma TotalOfOne(repo: Repo, oid: Oid)
    ensures TreeTotal(repo, [oid]) == TreeSize(repo, oid) && TreeTotal(repo, [oid][..0]) == 0
  {
    assert [oid][..0] == [];
  }

  /** Two stretches fit one after the other exactly when both together do. */
  lemma FitsJoin(repo: Repo, before: nat, a: seq<Oid>, b: seq<Oid>)
    ensures TreesFit(repo, before, a + b) <==> TreesFit(repo, before, a) && TreesFit(repo, before + TreeTotal(repo, a), b)
  {
    hide TreeTotal;
    TotalJoins(repo, a, b);
    if b == [] {
      assert a + b == a;
    } else {
      var front := b[..|b| - 1];
      assert (a + b)[..|a + b| - 1] == a + front;
      TotalJoins(repo, a, front);
      LastIsLast(repo, a);
    }
  }

  lemma LastIsLast(repo: Repo, a: seq<Oid>)
    ensures a != [] ==> TreeTotal(repo, a[..|a| - 1]) <= TreeTotal(repo, a)
  {
  }

  function Elements(oids: seq<Oid>): set<Oid> {
    set o | o in oids
  }

  lemma DistinctJoins(a: seq<Oid>, b: seq<Oid>)
    ensures Distinct(a + b) <==> Distinct(a) && Distinct(b) && Elements(a) !! Elements(b)
    ensures Elements(a + b) == Elements(a) + Elements(b)
  {
    var c := a + b;
    if Distinct(c) {
      assert forall i :: 0 <= i < |a| ==> c[i] == a[i];
      assert forall i :: 0 <= i < |b| ==> c[|a| + i] == b[i];
    }
    if x :| x in Elements(a) && x in Elements(b) {
      var i :| 0 <= i < |a| && a[i] == x;
      var j :| 0 <= j < |b| && b[j] == x;
      assert c[i] == c[|a| + j];
    }
    if Distinct(a) && Distinct(b) && Elements(a) !! Elements(b) {
      forall i, j | 0 <= i < j < |c| ensures c[i] != c[j] {
        assert i < |a| ==> c[i] in Elements(a);
        assert j >= |a| ==> c[j] in Elements(b);
      }
    }
  }

  lemma {:induction false} DistinctCount(oids: seq<Oid>)
    requires Distinct(oids)
    ensures |Elements(oids)| == |oids|
  {
    if oids != [] {
      var n := |oids| - 1;
      DistinctCount(oids[..n]);
      assert Elements(oids) == Elements(oids[..n]) + {oids[n]};
      assert oids[n] !in Elements(oids[..n]);
    }
  }

  // ---------- what a stretch of the traversal uses up ----------

  /** From one state to the other, these trees were visited and these entries and blobs taken, all within the budgets. */
  predicate Spent(repo: Repo, st: State, after: State, oids: seq<Oid>, entries: nat, blobs: nat) {
    && Distinct(oids) && Elements(oids) !! st.seen && after.seen == st.seen + Elements(oids)
    && (oids != [] ==> |after.seen| <= MAX_TREE_OBJECTS)
    && TreesFit(repo, st.treeBytes, oids) && after.treeBytes == st.treeBytes + TreeTotal(repo, oids)
    && after.entries == st.entries + entries && (entries > 0 ==> after.entries <= MAX_TREE_ENTRIES)
    && after.blobBytes == st.blobBytes + blobs
  }

  lemma SpentJoins(repo: Repo, st: State, middle: State, after: State, a: seq<Oid>, b: seq<Oid>, m: nat, n: nat, x: nat, y: nat)
    requires Spent(repo, st, middle, a, m, x) && Spent(repo, middle, after, b, n, y)
    ensures Spent(repo, st, after, a + b, m + n, x + y)
  {
    hide Elements, TreesFit, TreeTotal, Distinct;
    DistinctJoins(a, b);
    FitsJoin(repo, st.treeBytes, a, b);
    TotalJoins(repo, a, b);
    if b == [] {
      assert a + b == a;
      NoElements();
    }
  }

  lemma NoElements()
    ensures Elements([]) == {}
  {
  }

  lemma NothingSpent(repo: Repo, st: State)
    ensures Spent(repo, st, st, [], 0, 0)
  {
  }

  /** Visiting one tree. */
  lemma TreeSpent(repo: Repo, st: State, oid: Oid)
    requires oid in repo.trees && oid !in st.seen && |st.seen| < MAX_TREE_OBJECTS
    requires st.treeBytes < MAX_TREE_BYTES && st.treeBytes + |repo.trees[oid]| <= MAX_TREE_BYTES
    ensures Spent(repo, st, st.(seen := st.seen + {oid}, treeBytes := st.treeBytes + |repo.trees[oid]|), [oid], 0, 0)
  {
    TotalOfOne(repo, oid);
    assert Elements([oid]) == {oid};
  }

  // ---------- what is accepted is in order ----------

  /** A walked tree has an unfolding in order, and used up its totals. */
  lemma {:induction false} TreeUnfolds(repo: Repo, st: State, oid: Oid, prefix: bytes, depth: nat) returns (f: Forest)
    requires WalkTree(repo, st, oid, prefix, depth).Some?
    ensures Stored(repo, oid, Listing(f)) && ObjectsInOrder(repo, f)
    ensures SiblingsInOrder(repo, Listing(f)) && NamesInOrder(repo, f) && PathsInOrder(repo, f, prefix)
    ensures depth + Height(f) <= MAX_TREE_DEPTH
    ensures Spent(repo, st, WalkTree(repo, st, oid, prefix, depth).value, [oid] + Oids(f), EntryCount(f), BlobTotal(repo, f))
    decreases if depth > MAX_TREE_DEPTH then 0 else MAX_TREE_DEPTH + 1 - depth, 1, 0
  {
    hide WalkEntries, Parse, Spent, SiblingsInOrder, NamesFrom, NamesInOrder, PathsInOrder, ObjectsInOrder;
    var es := Parse(repo.trees[oid]).value;
    var st' := st.(seen := st.seen + {oid}, treeBytes := st.treeBytes + |repo.trees[oid]|);
    TreeSpent(repo, st, oid);
    f := EntriesUnfold(repo, st', es, {}, prefix, depth);
    NamesFromMeans(repo, es, {});
    SpentJoins(repo, st, st', WalkTree(repo, st, oid, prefix, depth).value, [oid], Oids(f), 0, EntryCount(f), 0, BlobTotal(repo, f));
  }

  lemma {:induction false} EntriesUnfold(repo: Repo, st: State, es: seq<Entry>, local: set<bytes>, prefix: bytes, depth: nat)
    returns (f: Forest)
    requires depth <= MAX_TREE_DEPTH && WalkEntries(repo, st, es, local, prefix, depth).Some?
    ensures Listing(f) == es && ObjectsInOrder(repo, f)
    ensures NamesFrom(repo, es, local) && NamesInOrder(repo, f) && PathsInOrder(repo, f, prefix)
    ensures depth + Height(f) <= MAX_TREE_DEPTH
    ensures Spent(repo, st, WalkEntries(repo, st, es, local, prefix, depth).value, Oids(f), EntryCount(f), BlobTotal(repo, f))
    decreases MAX_TREE_DEPTH + 1 - depth, 0, |es|
  {
    hide WalkEntry, Fold, Spent, SafePath, Stored, FileInOrder;
    f := End;
    if es == [] {
      NothingSpent(repo, st);
    } else {
      var e := es[0];
      var middle := WalkEntry(repo, st.(entries := st.entries + 1), e, local, prefix, depth).value;
      var local' := local + {Fold(repo, e.name)};
      var rest := EntriesUnfold(repo, middle, es[1..], local', prefix, depth);
      var first := EntryUnfolds(repo, st, e, local, prefix, depth);
      f := if first.Dir? then Dir(first.name, first.oid, first.below, rest) else Leaf(first.name, first.mode, first.oid, rest);
      assert es == [e] + es[1..];
      OneAndRest(repo, f, prefix);
      SpentJoins(repo, st, middle, WalkEntries(repo, st, es, local, prefix, depth).value, Oids(first), Oids(rest),
                 EntryCount(first), EntryCount(rest), BlobTotal(repo, first), BlobTotal(repo, rest));
    }
  }

  /** The first entry without the others. */
  function Alone(f: Forest): Forest
    requires !f.End?
  {
    match f
    case Dir(name, oid, below, _) => Dir(name, oid, below, End)
    case Leaf(name, mode, oid, _) => Leaf(name, mode, oid, End)
  }

  lemma OneAndRest(repo: Repo, f: Forest, prefix: bytes)
    requires !f.End?
    ensures var first, rest := Alone(f), f.rest;
            && Listing(f) == Listing(first) + Listing(rest) && Oids(f) == Oids(first) + Oids(rest)
            && EntryCount(f) == EntryCount(first) + EntryCount(rest)
            && BlobTotal(repo, f) == BlobTotal(repo, first) + BlobTotal(repo, rest)
            && (Height(f) == Height(first) || Height(f) == Height(rest)) && Height(first) <= Height(f) && Height(rest) <= Height(f)
            && (ObjectsInOrder(repo, f) <==> ObjectsInOrder(repo, first) && ObjectsInOrder(repo, rest))
            && (NamesInOrder(repo, f) <==> NamesInOrder(repo, first) && NamesInOrder(repo, rest))
            && (PathsInOrder(repo, f, prefix) <==> PathsInOrder(repo, first, prefix) && PathsInOrder(repo, rest, prefix))
  {
    hide SafePath, Stored, FileInOrder, SiblingsInOrder;
  }

  lemma {:induction false} EntryUnfolds(repo: Repo, st: State, e: Entry, local: set<bytes>, prefix: bytes, depth: nat)
    returns (f: Forest)
    requires depth <= MAX_TREE_DEPTH && st.entries + 1 <= MAX_TREE_ENTRIES
    requires WalkEntry(repo, st.(entries := st.entries + 1), e, local, prefix, depth).Some?
    ensures !f.End? && f.rest.End? && Listing(f) == [e] && ObjectsInOrder(repo, f)
    ensures repo.isText(e.name) && SLASH !in e.name && Fold(repo, e.name) !in local
    ensures NamesInOrder(repo, f) && PathsInOrder(repo, f, prefix) && depth + Height(f) <= MAX_TREE_DEPTH
    ensures Spent(repo, st, WalkEntry(repo, st.(entries := st.entries + 1), e, local, prefix, depth).value,
                  Oids(f), EntryCount(f), BlobTotal(repo, f))
    decreases MAX_TREE_DEPTH + 1 - depth, 0, 0
  {
    hide WalkTree, Fold, Spent, SafePath, SiblingsInOrder;
    var st' := st.(entries := st.entries + 1);
    var after := WalkEntry(repo, st', e, local, prefix, depth).value;
    if e.mode == MODE_DIR {
      var full := prefix + e.name;
      var grown := st'.(directories := st'.directories + {full});
      DirectoryIsTree(repo, st', e, full, depth);
      var below := TreeUnfolds(repo, grown, e.oid, full + [SLASH], depth + 1);
      f := Dir(e.name, e.oid, below, End);
      OneEntrySpent(repo, st, grown);
      SpentJoins(repo, st, grown, after, [], [e.oid] + Oids(below), 1, EntryCount(below), 0, BlobTotal(repo, below));
      assert [] + ([e.oid] + Oids(below)) == Oids(f);
    } else {
      f := Leaf(e.name, e.mode, e.oid, End);
      FileSpent(repo, st, e, local, prefix, depth);
    }
  }

  lemma OneEntrySpent(repo: Repo, st: State, after: State)
    requires st.entries + 1 <= MAX_TREE_ENTRIES && after == st.(entries := st.entries + 1, directories := after.directories)
    ensures Spent(repo, st, after, [], 1, 0)
  {
  }

  lemma FileSpent(repo: Repo, st: State, e: Entry, local: set<bytes>, prefix: bytes, depth: nat)
    requires depth <= MAX_TREE_DEPTH && st.entries + 1 <= MAX_TREE_ENTRIES && e.mode != MODE_DIR
    requires WalkEntry(repo, st.(entries := st.entries + 1), e, local, prefix, depth).Some?
    ensures var after := WalkEntry(repo, st.(entries := st.entries + 1), e, local, prefix, depth).value;
            FileInOrder(repo, e.mode, e.oid) && Spent(repo, st, after, [], 1, BlobSize(repo, e.oid))
  {
    hide SafePath, Fold;
  }

  // ---------- what is in order is accepted ----------

  /** The first component of a path below a prefix. */
  function NameAt(path: bytes, prefix: bytes): Option<bytes> {
    if StartsWith(path, prefix) then Some(Head(path[|prefix|..])) else None
  }

  /** No recorded file lies at or below one of these names. */
  predicate Unused(files: map<bytes, File>, prefix: bytes, names: set<bytes>) {
    forall p :: p in files ==> NameAt(p, prefix).None? || NameAt(p, prefix).value !in names
  }

  /** All files recorded meanwhile lie at or below one of these names. */
  predicate Added(before: map<bytes, File>, after: map<bytes, File>, prefix: bytes, names: set<bytes>) {
    forall p :: p in after && p !in before ==> NameAt(p, prefix).Some? && NameAt(p, prefix).value in names
  }

  /** There is room in every budget for these trees, entries and blobs. */
  predicate Room(repo: Repo, st: State, oids: seq<Oid>, entries: nat, blobs: nat) {
    && Distinct(oids) && Elements(oids) !! st.seen && |st.seen| + |oids| <= MAX_TREE_OBJECTS
    && TreesFit(repo, st.treeBytes, oids)
    && st.entries + entries <= MAX_TREE_ENTRIES && st.blobBytes + blobs < MAX_AGGREGATE_BLOB_BYTES
  }

  /** What a first stretch leaves is room for the second. */
  lemma RoomSplits(repo: Repo, st: State, a: seq<Oid>, b: seq<Oid>, m: nat, n: nat, x: nat, y: nat)
    requires Room(repo, st, a + b, m + n, x + y)
    ensures Room(repo, st, a, m, x)
    ensures forall middle :: Spent(repo, st, middle, a, m, x) ==> Room(repo, middle, b, n, y)
  {
    DistinctJoins(a, b);
    FitsJoin(repo, st.treeBytes, a, b);
    forall middle | Spent(repo, st, middle, a, m, x) ensures Room(repo, middle, b, n, y) {
      RestHasRoom(repo, st, middle, a, b, m, n, x, y);
    }
  }

  lemma RestHasRoom(repo: Repo, st: State, middle: State, a: seq<Oid>, b: seq<Oid>, m: nat, n: nat, x: nat, y: nat)
    requires Room(repo, st, a + b, m + n, x + y) && Spent(repo, st, middle, a, m, x)
    ensures Room(repo, middle, b, n, y)
  {
    hide Elements, TreesFit, TreeTotal, Distinct;
    DistinctJoins(a, b);
    DistinctCount(a);
    FitsJoin(repo, st.treeBytes, a, b);
    Sum2(st.seen, Elements(a));
    SpentOf(repo, st, middle, a, m, x);
    assert Elements(b) !! st.seen && Elements(b) !! Elements(a);
  }

  lemma SpentOf(repo: Repo, st: State, after: State, oids: seq<Oid>, entries: nat, blobs: nat)
    requires Spent(repo, st, after, oids, entries, blobs)
    ensures Distinct(oids) && after.seen == st.seen + Elements(oids) && Elements(oids) !! st.seen
    ensures after.treeBytes == st.treeBytes + TreeTotal(repo, oids)
  {
  }

  lemma Sum2(s: set<Oid>, t: set<Oid>)
    requires s !! t
    ensures |s + t| == |s| + |t|
  {
  }

  lemma {:induction false} TreeIsAccepted(repo: Repo, st: State, oid: Oid, f: Forest, prefix: bytes, depth: nat)
    requires Stored(repo, oid, Listing(f)) && ObjectsInOrder(repo, f)
    requires SiblingsInOrder(repo, Listing(f)) && NamesInOrder(repo, f) && PathsInOrder(repo, f, prefix)
    requires depth + Height(f) <= MAX_TREE_DEPTH
    requires Room(repo, st, [oid] + Oids(f), EntryCount(f), BlobTotal(repo, f))
    requires forall p :: p in st.files ==> !StartsWith(p, prefix)
    ensures var after := WalkTree(repo, st, oid, prefix, depth);
            && after.Some? && Spent(repo, st, after.value, [oid] + Oids(f), EntryCount(f), BlobTotal(repo, f))
            && forall p :: p in after.value.files ==> p in st.files || StartsWith(p, prefix)
    decreases f, 1
  {
    hide WalkEntries, Parse, Spent, SiblingsInOrder, NamesFrom, NamesInOrder, PathsInOrder, ObjectsInOrder, Listing, Oids;
    RoomSplits(repo, st, [oid], Oids(f), 0, EntryCount(f), 0, BlobTotal(repo, f));
    TreeHasRoom(repo, st, oid);
    TreeSpent(repo, st, oid);
    var st' := st.(seen := st.seen + {oid}, treeBytes := st.treeBytes + |repo.trees[oid]|);
    NamesFromMeans(repo, Listing(f), {});
    EntriesAreAccepted(repo, st', f, {}, prefix, depth);
    var after := WalkEntries(repo, st', Listing(f), {}, prefix, depth);
    assert WalkTree(repo, st, oid, prefix, depth) == after by { hide Room, Unused; }
    SpentJoins(repo, st, st', after.value, [oid], Oids(f), 0, EntryCount(f), 0, BlobTotal(repo, f));
  }

  lemma TreeHasRoom(repo: Repo, st: State, oid: Oid)
    requires oid in repo.trees && Room(repo, st, [oid], 0, 0)
    ensures oid !in st.seen && |st.seen| < MAX_TREE_OBJECTS
    ensures st.treeBytes < MAX_TREE_BYTES && st.treeBytes + |repo.trees[oid]| <= MAX_TREE_BYTES
  {
    TotalOfOne(repo, oid);
    assert oid in Elements([oid]);
  }

  lemma {:induction false} EntriesAreAccepted(repo: Repo, st: State, f: Forest, local: set<bytes>, prefix: bytes, depth: nat)
    requires ObjectsInOrder(repo, f) && NamesFrom(repo, Listing(f), local) && NamesInOrder(repo, f) && PathsInOrder(repo, f, prefix)
    requires depth + Height(f) <= MAX_TREE_DEPTH
    requires Room(repo, st, Oids(f), EntryCount(f), BlobTotal(repo, f)) && Unused(st.files, prefix, Names(Listing(f)))
    ensures var after := WalkEntries(repo, st, Listing(f), local, prefix, depth);
            && after.Some? && Spent(repo, st, after.value, Oids(f), EntryCount(f), BlobTotal(repo, f))
            && Added(st.files, after.value.files, prefix, Names(Listing(f)))
    decreases f, 0
  {
    hide WalkEntry, Fold, Spent, SafePath, Room, Unused, Added, Stored, FileInOrder, SiblingsInOrder, Names;
    if f.End? {
      NothingSpent(repo, st);
      NothingAdded(st.files, prefix);
    } else {
      var first, rest := Alone(f), f.rest;
      NamesOfCons(f);
      FirstHasRoom(repo, st, f, local, prefix);
      EntryIsAccepted(repo, st, f, local, prefix, depth);
      var middle := WalkEntry(repo, st.(entries := st.entries + 1), Listing(f)[0], local, prefix, depth).value;
      var local' := local + {Fold(repo, f.name)};
      RestHasItsRoom(repo, st, middle, f, local, prefix);
      EntriesAreAccepted(repo, middle, rest, local', prefix, depth);
      var after := WalkEntries(repo, middle, Listing(rest), local', prefix, depth).value;
      assert Listing(f)[1..] == Listing(rest);
      OneAndRest(repo, f, prefix);
      SpentJoins(repo, st, middle, after, Oids(first), Oids(rest), EntryCount(first), EntryCount(rest),
                 BlobTotal(repo, first), BlobTotal(repo, rest));
      AddedJoins(st.files, middle.files, after.files, prefix, f.name, Names(Listing(rest)));
    }
  }

  lemma FirstHasRoom(repo: Repo, st: State, f: Forest, local: set<bytes>, prefix: bytes)
    requires !f.End? && NamesFrom(repo, Listing(f), local)
    requires Room(repo, st, Oids(f), EntryCount(f), BlobTotal(repo, f)) && Unused(st.files, prefix, Names(Listing(f)))
    ensures repo.isText(f.name) && SLASH !in f.name && Fold(repo, f.name) !in local && st.entries + 1 <= MAX_TREE_ENTRIES
    ensures var first := Alone(f); Room(repo, st, Oids(first), EntryCount(first), BlobTotal(repo, first))
    ensures Unused(st.files, prefix, {f.name})
  {
    hide Fold, Room, Unused, Spent, Names;
    var first, rest := Alone(f), f.rest;
    OneAndRest(repo, f, prefix);
    RoomSplits(repo, st, Oids(first), Oids(rest), EntryCount(first), EntryCount(rest), BlobTotal(repo, first), BlobTotal(repo, rest));
    RoomForEntry(repo, st, EntryCount(f), BlobTotal(repo, f), Oids(f));
    NamesOfCons(f);
    FewerUnused(st.files, prefix, Names(Listing(f)), {f.name});
  }

  lemma RestHasItsRoom(repo: Repo, st: State, middle: State, f: Forest, local: set<bytes>, prefix: bytes)
    requires !f.End? && NamesFrom(repo, Listing(f), local)
    requires Room(repo, st, Oids(f), EntryCount(f), BlobTotal(repo, f)) && Unused(st.files, prefix, Names(Listing(f)))
    requires var first := Alone(f); Spent(repo, st, middle, Oids(first), EntryCount(first), BlobTotal(repo, first))
    requires Added(st.files, middle.files, prefix, {f.name})
    ensures Room(repo, middle, Oids(f.rest), EntryCount(f.rest), BlobTotal(repo, f.rest))
    ensures NamesFrom(repo, Listing(f.rest), local + {Fold(repo, f.name)}) && Unused(middle.files, prefix, Names(Listing(f.rest)))
  {
    hide Fold, Room, Unused, Added, Spent, Names, Oids, EntryCount, BlobTotal, Listing, NamesFrom;
    var first, rest := Alone(f), f.rest;
    OneAndRest(repo, f, prefix);
    RoomSplits(repo, st, Oids(first), Oids(rest), EntryCount(first), EntryCount(rest), BlobTotal(repo, first), BlobTotal(repo, rest));
    NamesOfRest(repo, f, local);
    StillUnused(st.files, middle.files, prefix, Names(Listing(f)), f.name, Names(Listing(rest)));
  }

  lemma NamesOfRest(repo: Repo, f: Forest, local: set<bytes>)
    requires !f.End? && NamesFrom(repo, Listing(f), local)
    ensures NamesFrom(repo, Listing(f.rest), local + {Fold(repo, f.name)})
    ensures f.name !in Names(Listing(f.rest)) && Names(Listing(f)) == {f.name} + Names(Listing(f.rest))
  {
    hide Fold, Names;
    NamesOfCons(f);
    assert Listing(f)[1..] == Listing(f.rest);
    NamesAreNew(repo, Listing(f.rest), local + {Fold(repo, f.name)}, f.name);
  }

  lemma RoomForEntry(repo: Repo, st: State, entries: nat, blobs: nat, oids: seq<Oid>)
    requires Room(repo, st, oids, entries, blobs) && entries > 0
    ensures st.entries + 1 <= MAX_TREE_ENTRIES
  {
  }

  lemma NamesOfCons(f: Forest)
    requires !f.End?
    ensures Listing(f) == [Listing(f)[0]] + Listing(f.rest) && Listing(f)[0].name == f.name && Listing(f)[0].oid == f.oid
    ensures Names(Listing(f)) == {f.name} + Names(Listing(f.rest))
  {
    var e, es := Listing(f)[0], Listing(f.rest);
    assert Listing(f) == [e] + es;
    assert forall x :: x in Listing(f) <==> x == e || x in es;
  }

  lemma NothingAdded(files: map<bytes, File>, prefix: bytes)
    ensures Added(files, files, prefix, Names([]))
  {
  }

  lemma FewerUnused(files: map<bytes, File>, prefix: bytes, names: set<bytes>, fewer: set<bytes>)
    requires Unused(files, prefix, names) && fewer <= names
    ensures Unused(files, prefix, fewer)
  {
    hide NameAt;
  }

  lemma StillUnused(before: map<bytes, File>, after: map<bytes, File>, prefix: bytes, names: set<bytes>, name: bytes, others: set<bytes>)
    requires Unused(before, prefix, names) && Added(before, after, prefix, {name}) && others <= names && name !in others
    ensures Unused(after, prefix, others)
  {
    hide NameAt;
  }

  lemma AddedJoins(before: map<bytes, File>, middle: map<bytes, File>, after: map<bytes, File>, prefix: bytes, name: bytes, others: set<bytes>)
    requires Added(before, middle, prefix, {name}) && Added(middle, after, prefix, others)
    ensures Added(before, after, prefix, {name} + others)
  {
    hide NameAt;
  }

  lemma {:induction false} EntryIsAccepted(repo: Repo, st: State, f: Forest, local: set<bytes>, prefix: bytes, depth: nat)
    requires !f.End? && depth <= MAX_TREE_DEPTH
    requires var first := Alone(f);
             && ObjectsInOrder(repo, first) && NamesInOrder(repo, first) && PathsInOrder(repo, first, prefix)
             && depth + Height(first) <= MAX_TREE_DEPTH
             && Room(repo, st, Oids(first), EntryCount(first), BlobTotal(repo, first))
    requires repo.isText(f.name) && SLASH !in f.name && Fold(repo, f.name) !in local && st.entries + 1 <= MAX_TREE_ENTRIES
    requires Unused(st.files, prefix, {f.name})
    ensures var first := Alone(f);
            var after := WalkEntry(repo, st.(entries := st.entries + 1), Listing(f)[0], local, prefix, depth);
            && after.Some? && Spent(repo, st, after.value, Oids(first), EntryCount(first), BlobTotal(repo, first))
            && Added(st.files, after.value.files, prefix, {f.name})
    decreases f, 0, 0
  {
    hide WalkTree, WalkDirectory, Fold, SafePath, SiblingsInOrder, Spent, Room, Unused, Added;
    if f.Dir? {
      var full, st' := prefix + f.name, st.(entries := st.entries + 1);
      var grown := st'.(directories := st'.directories + {full});
      DirectoryHasRoom(repo, st, grown, f, prefix);
      TreeIsAccepted(repo, grown, f.oid, f.below, full + [SLASH], depth + 1);
      DirectoryIsTree(repo, st', Listing(f)[0], full, depth);
      DirectorySpent(repo, st, grown, WalkTree(repo, grown, f.oid, full + [SLASH], depth + 1).value, f, prefix);
    } else {
      FileIsAccepted(repo, st, Listing(f)[0], local, prefix, depth);
    }
  }

  lemma DirectoryHasRoom(repo: Repo, st: State, grown: State, f: Forest, prefix: bytes)
    requires f.Dir? && SLASH !in f.name && Unused(st.files, prefix, {f.name})
    requires var first := Alone(f); Room(repo, st, Oids(first), EntryCount(first), BlobTotal(repo, first))
    requires grown == st.(entries := st.entries + 1, directories := grown.directories)
    ensures Room(repo, grown, [f.oid] + Oids(f.below), EntryCount(f.below), BlobTotal(repo, f.below))
    ensures forall p :: p in grown.files ==> !StartsWith(p, prefix + f.name + [SLASH])
  {
    hide Room, Spent, Unused, StartsWith;
    var oids := [f.oid] + Oids(f.below);
    assert Oids(Alone(f)) == [] + oids;
    RoomSplits(repo, st, [], oids, 1, EntryCount(f.below), 0, BlobTotal(repo, f.below));
    RoomForEntry(repo, st, EntryCount(Alone(f)), BlobTotal(repo, Alone(f)), Oids(Alone(f)));
    OneEntrySpent(repo, st, grown);
    NothingBelow(st.files, prefix, f.name);
  }

  lemma DirectorySpent(repo: Repo, st: State, grown: State, after: State, f: Forest, prefix: bytes)
    requires f.Dir? && SLASH !in f.name && st.entries + 1 <= MAX_TREE_ENTRIES
    requires grown == st.(entries := st.entries + 1, directories := grown.directories)
    requires Spent(repo, grown, after, [f.oid] + Oids(f.below), EntryCount(f.below), BlobTotal(repo, f.below))
    requires forall p :: p in after.files ==> p in grown.files || StartsWith(p, prefix + f.name + [SLASH])
    ensures var first := Alone(f); Spent(repo, st, after, Oids(first), EntryCount(first), BlobTotal(repo, first))
    ensures Added(st.files, after.files, prefix, {f.name})
  {
    hide Spent, Added, StartsWith;
    var oids := [f.oid] + Oids(f.below);
    assert Oids(Alone(f)) == [] + oids;
    OneEntrySpent(repo, st, grown);
    SpentJoins(repo, st, grown, after, [], oids, 1, EntryCount(f.below), 0, BlobTotal(repo, f.below));
    BelowIsAdded(st.files, after.files, prefix, f.name);
  }

  lemma NothingBelow(files: map<bytes, File>, prefix: bytes, name: bytes)
    requires SLASH !in name && Unused(files, prefix, {name})
    ensures forall p :: p in files ==> p != prefix + name && !StartsWith(p, prefix + name + [SLASH])
  {
    forall p | p in files ensures p != prefix + name && !StartsWith(p, prefix + name + [SLASH]) {
      At(p, prefix, name);
    }
  }

  lemma BelowIsAdded(before: map<bytes, File>, after: map<bytes, File>, prefix: bytes, name: bytes)
    requires SLASH !in name && forall p :: p in after ==> p in before || StartsWith(p, prefix + name + [SLASH])
    ensures Added(before, after, prefix, {name})
  {
    forall p | p in after && p !in before ensures NameAt(p, prefix) == Some(name) {
      At(p, prefix, name);
    }
  }

  /** A path at or below a name is the name itself or lies below its directory. */
  lemma At(path: bytes, prefix: bytes, name: bytes)
    requires SLASH !in name
    ensures path == prefix + name || StartsWith(path, prefix + name + [SLASH]) ==> NameAt(path, prefix) == Some(name)
  {
    if path == prefix + name {
      assert path[|prefix|..] == name;
      TreeWalkTheorems.HeadOf(name, []);
    }
    var full := prefix + name + [SLASH];
    if StartsWith(path, full) {
      var tail := path[|full|..];
      assert path == prefix + (name + [SLASH] + tail);
      assert path[|prefix|..] == name + [SLASH] + tail;
      TreeWalkTheorems.HeadOf(name, tail);
    }
  }

  lemma FileIsAccepted(repo: Repo, st: State, e: Entry, local: set<bytes>, prefix: bytes, depth: nat)
    requires depth <= MAX_TREE_DEPTH && FileInOrder(repo, e.mode, e.oid) && SafePath(repo, prefix + e.name)
    requires repo.isText(e.name) && SLASH !in e.name && Fold(repo, e.name) !in local
    requires Room(repo, st, [], 1, BlobSize(repo, e.oid)) && Unused(st.files, prefix, {e.name})
    ensures var after := WalkEntry(repo, st.(entries := st.entries + 1), e, local, prefix, depth);
            && after.Some? && Spent(repo, st, after.value, [], 1, BlobSize(repo, e.oid))
            && Added(st.files, after.value.files, prefix, {e.name})
  {
    hide SafePath, Fold;
    var full := prefix + e.name;
    NothingBelow(st.files, prefix, e.name);
    At(full, prefix, e.name);
    hide Unused, NameAt, StartsWith;
  }

  // ---------- the theorem ----------

  lemma EmptyTreeHasNoEntries(repo: Repo, root: Oid, f: Forest)
    requires Stored(repo, root, Listing(f)) && !f.End?
    ensures TreeSize(repo, root) > 0
  {
    NamesOfCons(f);
    assert ParseFrom([], 0) == Some([]);
  }

  lemma StartHasRoom(repo: Repo, root: Oid, f: Forest)
    requires Stored(repo, root, Listing(f)) && WithinBudgets(repo, root, f)
    ensures Room(repo, START, [root] + Oids(f), EntryCount(f), BlobTotal(repo, f))
  {
    if !f.End? {
      EmptyTreeHasNoEntries(repo, root, f);
      TotalJoins(repo, [root], Oids(f));
      TotalOfOne(repo, root);
    }
    hide Stored, TreesFit, TreeTotal;
  }

  lemma AcceptableIsAccepted(repo: Repo, root: Oid, f: Forest)
    requires Acceptable(repo, root, f)
    ensures Walk(repo, root).Some?
  {
    hide Stored, ObjectsInOrder, SiblingsInOrder, NamesInOrder, PathsInOrder, Room, WalkTree, TreesFit, TreeTotal, Distinct;
    StartHasRoom(repo, root, f);
    TreeIsAccepted(repo, START, root, f, [], 0);
  }

  lemma AcceptedIsAcceptable(repo: Repo, root: Oid) returns (f: Forest)
    requires Walk(repo, root).Some?
    ensures Acceptable(repo, root, f)
  {
    hide Stored, ObjectsInOrder, SiblingsInOrder, NamesInOrder, PathsInOrder, WalkTree, TreesFit, TreeTotal, Distinct;
    f := TreeUnfolds(repo, START, root, [], 0);
    SeenIsCounted(repo, START, WalkTree(repo, START, root, [], 0).value, [root] + Oids(f), EntryCount(f), BlobTotal(repo, f));
  }

  lemma SeenIsCounted(repo: Repo, st: State, after: State, oids: seq<Oid>, entries: nat, blobs: nat)
    requires st.seen == {} && Spent(repo, st, after, oids, entries, blobs)
    ensures |oids| <= MAX_TREE_OBJECTS
  {
    DistinctCount(oids);
    assert after.seen == Elements(oids);
  }

  lemma NothingLeft(repo: Repo)
    ensures Listing(End) == [] && Oids(End) == [] && EntryCount(End) == 0 && Height(End) == 0 && BlobTotal(repo, End) == 0
    ensures ObjectsInOrder(repo, End) && NamesInOrder(repo, End) && PathsInOrder(repo, End, [])
  {
  }

  /** For one: a root with a single file, plain or executable, whose name is a safe path. */
  lemma OneFileIsAccepted(repo: Repo, root: Oid, mode: bytes, name: bytes, blob: Oid)
    requires Stored(repo, root, [Entry(mode, name, blob)]) && |repo.trees[root]| <= MAX_TREE_BYTES
    requires FileInOrder(repo, mode, blob) && repo.isText(name) && SLASH !in name && SafePath(repo, name)
    requires |repo.trees[root]| + |repo.blobs[blob]| <= MAX_CANDIDATE_TREE_BYTES
    ensures Walk(repo, root).Some?
  {
    var f := Leaf(name, mode, blob, End);
    assert [] + name == name;
    TotalOfOne(repo, root);
    assert [root] + [] == [root] && Listing(f) == [Entry(mode, name, blob)];
    hide SafePath, Fold, Parse;
    NothingLeft(repo);
    assert ObjectsInOrder(repo, f) && SiblingsInOrder(repo, Listing(f)) && NamesInOrder(repo, f) && PathsInOrder(repo, f, []);
    assert Oids(f) == [] && EntryCount(f) == 1 && Height(f) == 0 && BlobTotal(repo, f) == |repo.blobs[blob]|;
    assert WithinBudgets(repo, root, f);
    AcceptableIsAccepted(repo, root, f);
  }

  /**
   For every store, cyclic ones included: the traversal accepts a root exactly when the root unfolds into a
   finite tree of stored, well-named, safely placed objects with the right hashes, no tree of which is
   reached twice and whose depth and totals are within the budgets.
   */
  lemma AcceptedIffAcceptable(repo: Repo, root: Oid)
    ensures Walk(repo, root).Some? <==> exists f :: Acceptable(repo, root, f)
  {
    hide Acceptable, Walk;
    if Walk(repo, root).Some? {
      var f := AcceptedIsAcceptable(repo, root);
    }
    if f :| Acceptable(repo, root, f) {
      AcceptableIsAccepted(repo, root, f);
    }
  }
}
