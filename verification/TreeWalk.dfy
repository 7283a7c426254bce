/** The budgeted traversal of a Git tree, against path lookup in the same object store. */
module TreeWalk {
  import opened Bytes
  import opened GitTree

  const MAX_TREE_DEPTH := 64
  const MAX_TREE_OBJECTS := 2048
  const MAX_TREE_BYTES := 4194304
  const MAX_TREE_ENTRIES := 8192
  const MAX_BLOB_BYTES := 4194304
  const MAX_AGGREGATE_BLOB_BYTES := 33554432
  const MAX_CANDIDATE_TREE_BYTES := 33554432

  const MODE_DIR: bytes := [52, 48, 48, 48, 48]
  const MODE_FILE: bytes := [49, 48, 48, 54, 52, 52]
  const MODE_EXEC: bytes := [49, 48, 48, 55, 53, 53]

  /** The object store, its hash function, the strict text decoder and the per-character case fold. */
  datatype Repo = Repo(trees: map<Oid, bytes>, blobs: map<Oid, bytes>,
                       treeDigest: bytes -> Oid, blobDigest: bytes -> Oid,
                       isText: bytes -> bool, fold: byte -> bytes)

  // ---------- text ----------

  function Fold(repo: Repo, s: bytes): bytes {
    if s == [] then [] else repo.fold(s[0]) + Fold(repo, s[1..])
  }

  /** Up to the first slash. */
  function Head(s: bytes): (h: bytes)
    ensures |h| <= |s| && s[..|h|] == h && SLASH !in h
    ensures |h| < |s| ==> s[|h|] == SLASH
  {
    if s == [] || s[0] == SLASH then [] else [s[0]] + Head(s[1..])
  }

  function Parts(path: bytes): seq<bytes>
    decreases |path|
  {
    var h := Head(path);
    if h == path then [path] else [h] + Parts(path[|h| + 1..])
  }

  function Stem(part: bytes): bytes {
    if part == [] || part[0] == 46 then [] else [part[0]] + Stem(part[1..])
  }

  const DEVICE_NAMES: set<bytes> :=
    {[99, 111, 110], [112, 114, 110], [97, 117, 120], [110, 117, 108]}  // con prn aux nul

  predicate Reserved(stem: bytes) {
    stem in DEVICE_NAMES
    || (|stem| == 4 && (stem[..3] == [99, 111, 109] || stem[..3] == [108, 112, 116]) && 49 <= stem[3] <= 57)  // com1-9, lpt1-9
  }

  predicate SafeChar(c: byte) {
    c >= 32 && c !in {60, 62, 58, 34, 124, 63, 42}
  }

  predicate SafePart(repo: Repo, part: bytes) {
    && part != [] && part != [46] && part != [46, 46]
    && part[|part| - 1] != 32 && part[|part| - 1] != 46
    && (forall i :: 0 <= i < |part| ==> SafeChar(part[i]))
    && !Reserved(Stem(Fold(repo, part)))
  }

  /** `_safe_path`: true when it does not raise. */
  predicate SafePath(repo: Repo, path: bytes) {
    && path != [] && path[0] != SLASH && 92 !in path && 58 !in path && |path| <= 1024
    && forall i :: 0 <= i < |Parts(path)| ==> SafePart(repo, Parts(path)[i])
  }

  // ---------- the traversal ----------

  datatype File = File(mode: bytes, data: bytes)

  datatype State = State(files: map<bytes, File>, directories: set<bytes>, seen: set<Oid>,
                         treeBytes: nat, entries: nat, blobBytes: nat)

  const START := State(map[], {[]}, {}, 0, 0, 0)

  /** `_git_object`: the bounded read and the hash comparison. */
  function Fetch(objects: map<Oid, bytes>, digest: bytes -> Oid, oid: Oid, limit: int): (r: Option<bytes>)
    ensures r.Some? ==> oid in objects && r.value == objects[oid] && |r.value| <= limit && digest(r.value) == oid
  {
    if oid !in objects || |objects[oid]| > limit || digest(objects[oid]) != oid then None else Some(objects[oid])
  }

  /** What `walk(oid, prefix, depth)` does to the state; None when it raises. */
  function WalkTree(repo: Repo, st: State, oid: Oid, prefix: bytes, depth: nat): Option<State>
    decreases if depth > MAX_TREE_DEPTH then 0 else MAX_TREE_DEPTH + 1 - depth, 1, 0
  {
    if depth > MAX_TREE_DEPTH || oid in st.seen || |st.seen| >= MAX_TREE_OBJECTS || MAX_TREE_BYTES - st.treeBytes <= 0 then None
    else
      var data := Fetch(repo.trees, repo.treeDigest, oid, MAX_TREE_BYTES - st.treeBytes);
      if data.None? || Parse(data.value).None? then None
      else WalkEntries(repo, st.(seen := st.seen + {oid}, treeBytes := st.treeBytes + |data.value|),
                       Parse(data.value).value, {}, prefix, depth)
  }

  function WalkEntries(repo: Repo, st: State, es: seq<Entry>, local: set<bytes>, prefix: bytes, depth: nat): Option<State>
    requires depth <= MAX_TREE_DEPTH
    decreases MAX_TREE_DEPTH + 1 - depth, 0, |es|
  {
    if es == [] then Some(st)
    else
      var after := if st.entries + 1 > MAX_TREE_ENTRIES then None
                   else WalkEntry(repo, st.(entries := st.entries + 1), es[0], local, prefix, depth);
      if after.None? then None
      else WalkEntries(repo, after.value, es[1..], local + {Fold(repo, es[0].name)}, prefix, depth)
  }

  function WalkEntry(repo: Repo, st: State, e: Entry, local: set<bytes>, prefix: bytes, depth: nat): Option<State>
    requires depth <= MAX_TREE_DEPTH
    decreases MAX_TREE_DEPTH - depth, 3, 0
  {
    var full := prefix + e.name;
    if !repo.isText(e.name) || SLASH in e.name || !SafePath(repo, full)
       || Fold(repo, e.name) in local then None
    else if e.mode == MODE_DIR then WalkDirectory(repo, st, e, full, depth)
    else if e.mode == MODE_FILE || e.mode == MODE_EXEC then WalkFile(repo, st, e, full)
    else None
  }

  function WalkDirectory(repo: Repo, st: State, e: Entry, full: bytes, depth: nat): Option<State>
    requires depth <= MAX_TREE_DEPTH
    decreases MAX_TREE_DEPTH - depth, 2, 0
  {
    WalkTree(repo, st.(directories := st.directories + {full}), e.oid, full + [SLASH], depth + 1)
  }

  lemma DirectoryIsTree(repo: Repo, st: State, e: Entry, full: bytes, depth: nat)
    requires depth <= MAX_TREE_DEPTH
    ensures WalkDirectory(repo, st, e, full, depth)
            == WalkTree(repo, st.(directories := st.directories + {full}), e.oid, full + [SLASH], depth + 1)
  {
    hide WalkTree;
  }

  function WalkFile(repo: Repo, st: State, e: Entry, full: bytes): Option<State> {
    var room := if MAX_BLOB_BYTES < MAX_AGGREGATE_BLOB_BYTES - st.blobBytes then MAX_BLOB_BYTES
                else MAX_AGGREGATE_BLOB_BYTES - st.blobBytes;
    var blob := Fetch(repo.blobs, repo.blobDigest, e.oid, room);
    if full in st.files || room <= 0 || blob.None? then None
    else Some(st.(blobBytes := st.blobBytes + |blob.value|, files := st.files[full := File(e.mode, blob.value)]))
  }

  /** `_walk_tree` as a whole. */
  function Walk(repo: Repo, root: Oid): Option<State> {
    var st := WalkTree(repo, START, root, [], 0);
    if st.None? || st.value.treeBytes + st.value.blobBytes > MAX_CANDIDATE_TREE_BYTES then None else st
  }

  /** What is still to be done in one tree body, from a position on. */
  ghost function Remaining(repo: Repo, st: State, data: bytes, position: nat, local: set<bytes>, prefix: bytes, depth: nat): Option<State>
    requires depth <= MAX_TREE_DEPTH
  {
    var es := ParseFrom(data, position);
    if es.None? then None else WalkEntries(repo, st, es.value, local, prefix, depth)
  }

  lemma RemainingStep(repo: Repo, st: State, data: bytes, position: nat, local: set<bytes>, prefix: bytes, depth: nat)
    requires depth <= MAX_TREE_DEPTH && position < |data|
    ensures var step := Next(data, position);
            Remaining(repo, st, data, position, local, prefix, depth)
            == if step.None? then None
               else
                 var e := step.value.entry;
                 var after := if st.entries + 1 > MAX_TREE_ENTRIES then None
                              else WalkEntry(repo, st.(entries := st.entries + 1), e, local, prefix, depth);
                 if after.None? then None
                 else Remaining(repo, after.value, data, step.value.next, local + {Fold(repo, e.name)}, prefix, depth)
  {
    hide Next, WalkEntry, Fold;
    var step := Next(data, position);
    if step.Some? {
      var rest := ParseFrom(data, step.value.next);
      if rest.Some? {
        assert ([step.value.entry] + rest.value)[1..] == rest.value;
      }
    }
  }

  /** The body of a tree that may be visited: the checks before the loop. */
  function Opened(repo: Repo, st: State, oid: Oid, depth: nat): (data: Option<bytes>)
    ensures data.Some? ==> depth <= MAX_TREE_DEPTH && oid !in st.seen && |st.seen| < MAX_TREE_OBJECTS
                           && st.treeBytes + |data.value| <= MAX_TREE_BYTES
  {
    if depth > MAX_TREE_DEPTH || oid in st.seen || |st.seen| >= MAX_TREE_OBJECTS || MAX_TREE_BYTES - st.treeBytes <= 0 then None
    else Fetch(repo.trees, repo.treeDigest, oid, MAX_TREE_BYTES - st.treeBytes)
  }

  lemma TreeStart(repo: Repo, st: State, oid: Oid, prefix: bytes, depth: nat)
    ensures var data := Opened(repo, st, oid, depth);
            WalkTree(repo, st, oid, prefix, depth)
            == if data.None? then None
               else Remaining(repo, st.(seen := st.seen + {oid}, treeBytes := st.treeBytes + |data.value|),
                              data.value, 0, {}, prefix, depth)
  {
    hide WalkEntries, ParseFrom, Fetch;
  }

  lemma RemainingEnd(repo: Repo, st: State, data: bytes, position: nat, local: set<bytes>, prefix: bytes, depth: nat)
    requires depth <= MAX_TREE_DEPTH && position >= |data|
    ensures Remaining(repo, st, data, position, local, prefix, depth) == Some(st)
  {
  }

  // ---------- budgets ----------

  /** How many slashes a path holds. */
  function Slashes(s: bytes): nat {
    if s == [] then 0 else Slashes(s[..|s| - 1]) + if s[|s| - 1] == SLASH then 1 else 0
  }

  lemma {:induction false} SlashesJoin(a: bytes, b: bytes)
    ensures Slashes(a + b) == Slashes(a) + Slashes(b)
  {
    if b == [] {
      assert a + b == a;
    } else {
      assert (a + b)[..|a + b| - 1] == a + b[..|b| - 1];
      SlashesJoin(a, b[..|b| - 1]);
    }
  }

  lemma {:induction false} NoSlashes(s: bytes)
    requires SLASH !in s
    ensures Slashes(s) == 0
  {
    if s != [] {
      NoSlashes(s[..|s| - 1]);
    }
  }

  /** A path has one component more than slashes. */
  lemma {:induction false} ComponentsAreSlashes(path: bytes)
    ensures |Parts(path)| == Slashes(path) + 1
    decreases |path|
  {
    var h := Head(path);
    NoSlashes(h);
    if h != path {
      var rest := path[|h| + 1..];
      assert path == h + [SLASH] + rest;
      SlashesJoin(h + [SLASH], rest);
      SlashesJoin(h, [SLASH]);
      assert Slashes([SLASH]) == 1 by { assert [SLASH][..0] == []; }
      ComponentsAreSlashes(rest);
    }
  }

  /** A name below a prefix of some depth, and the prefix of what lies below it. */
  lemma DepthBelow(prefix: bytes, name: bytes)
    requires SLASH !in name
    ensures |Parts(prefix + name)| == Slashes(prefix) + 1 && Slashes(prefix + name + [SLASH]) == Slashes(prefix) + 1
  {
    SlashesJoin(prefix, name);
    SlashesJoin(prefix + name, [SLASH]);
    NoSlashes(name);
    ComponentsAreSlashes(prefix + name);
    assert Slashes([SLASH]) == 1 by { assert [SLASH][..0] == []; }
  }

  /**
   What the accumulators never exceed, whatever the store holds and however the traversal ends. The entry
   over the budget is counted before it is refused, and a directory below the depth limit is recorded before
   its visit is refused.
   */
  predicate Bounded(st: State) {
    && |st.seen| <= MAX_TREE_OBJECTS && st.entries <= MAX_TREE_ENTRIES + 1
    && st.treeBytes <= MAX_TREE_BYTES && st.blobBytes <= MAX_AGGREGATE_BLOB_BYTES
    && |st.files| + |st.directories| <= st.entries + 1
    && (forall p :: p in st.files ==> |st.files[p].data| <= MAX_BLOB_BYTES && |Parts(p)| <= MAX_TREE_DEPTH + 1)
    && (forall p :: p in st.directories ==> |Parts(p)| <= MAX_TREE_DEPTH + 1)
  }

  /** Before an entry is taken there is room for one more path. */
  predicate Ready(st: State) {
    Bounded(st) && st.entries <= MAX_TREE_ENTRIES && |st.files| + |st.directories| <= st.entries
  }

  lemma StartBounded()
    ensures Bounded(START) && START.entries <= MAX_TREE_ENTRIES
  {
    ComponentsAreSlashes([]);
    assert START.files.Keys == {} && |START.directories| == 1;
  }

  /** Opening a tree, or failing to, keeps the bounds and leaves its entries to be walked. */
  lemma Opening(repo: Repo, s: State, t: State, oid: Oid, prefix: bytes, depth: nat)
    requires t == s.(seen := t.seen, treeBytes := t.treeBytes)
    requires var data := Opened(repo, s, oid, depth);
             if data.Some? then t.seen == s.seen + {oid} && t.treeBytes == s.treeBytes + |data.value|
             else t.treeBytes == s.treeBytes && (t.seen == s.seen || (|s.seen| < MAX_TREE_OBJECTS && t.seen == s.seen + {oid}))
    ensures Bounded(s) ==> Bounded(t)
    ensures var data := Opened(repo, s, oid, depth);
            WalkTree(repo, s, oid, prefix, depth)
            == if data.Some? then Remaining(repo, t, data.value, 0, {}, prefix, depth) else None
  {
    hide WalkTree, Remaining, Opened, Bounded;
    TreeStart(repo, s, oid, prefix, depth);
    OpeningBounds(s, t, oid);
    var data := Opened(repo, s, oid, depth);
    assert data.Some? ==> t == s.(seen := s.seen + {oid}, treeBytes := s.treeBytes + |data.value|);
  }

  lemma OpeningBounds(s: State, t: State, oid: Oid)
    requires t == s.(seen := t.seen, treeBytes := t.treeBytes) && (s.treeBytes == t.treeBytes || t.treeBytes <= MAX_TREE_BYTES)
    requires t.seen == s.seen || (|s.seen| < MAX_TREE_OBJECTS && t.seen == s.seen + {oid})
    ensures Bounded(s) ==> Bounded(t)
  {
  }

  lemma EntryBounded(st: State)
    ensures Bounded(st) && st.entries <= MAX_TREE_ENTRIES ==>
              var t := st.(entries := st.entries + 1);
              Bounded(t) && (t.entries <= MAX_TREE_ENTRIES ==> Ready(t))
  {
  }

  lemma DirectoryBounded(st: State, full: bytes)
    ensures Ready(st) && |Parts(full)| <= MAX_TREE_DEPTH + 1 ==> Bounded(st.(directories := st.directories + {full}))
  {
    hide Parts;
  }

  lemma FileBounded(st: State, full: bytes, file: File)
    requires |file.data| <= MAX_BLOB_BYTES && st.blobBytes + |file.data| <= MAX_AGGREGATE_BLOB_BYTES
    ensures Ready(st) && |Parts(full)| <= MAX_TREE_DEPTH + 1 ==>
              Bounded(st.(blobBytes := st.blobBytes + |file.data|, files := st.files[full := file]))
  {
    hide Parts;
    assert st.files[full := file].Keys == st.files.Keys + {full};
    assert |st.files[full := file]| == |st.files[full := file].Keys| && |st.files| == |st.files.Keys|;
  }

  lemma ReadyIsBounded(st: State)
    ensures Ready(st) ==> Bounded(st) && st.entries <= MAX_TREE_ENTRIES
  {
  }

  /** The closure of `_walk_tree`: its accumulators, and the recursion that updates them in place. */
  class Walker {
    const repo: Repo
    var files: map<bytes, File>
    var directories: set<bytes>
    var treeOids: set<Oid>
    var treeBytes: nat
    var entries: nat
    var aggregateBlobs: nat

    constructor (repo: Repo)
      ensures this.repo == repo && View() == START
    {
      this.repo := repo;
      files, directories, treeOids := map[], {[]}, {};
      treeBytes, entries, aggregateBlobs := 0, 0, 0;
    }

    function View(): State
      reads this
    {
      State(files, directories, treeOids, treeBytes, entries, aggregateBlobs)
    }

    /** The checks before the loop, and the bounded read of the tree. */
    method ReadTree(oid: Oid, depth: nat) returns (data: Option<bytes>)
      modifies `treeOids, `treeBytes
      ensures data == Opened(repo, old(View()), oid, depth)
      ensures data.Some? ==> treeOids == old(treeOids) + {oid} && treeBytes == old(treeBytes) + |data.value|
      ensures data.None? ==> treeBytes == old(treeBytes)
      ensures treeOids == old(treeOids) || (|old(treeOids)| < MAX_TREE_OBJECTS && treeOids == old(treeOids) + {oid})
    {
      hide Fetch;
      if depth > MAX_TREE_DEPTH || oid in treeOids || |treeOids| >= MAX_TREE_OBJECTS {
        return None;
      }
      treeOids := treeOids + {oid};
      var remainingTrees := MAX_TREE_BYTES - treeBytes;
      if remainingTrees <= 0 {
        return None;
      }
      data := Fetch(repo.trees, repo.treeDigest, oid, remainingTrees);
      if data.None? {
        return None;
      }
      treeBytes := treeBytes + |data.value|;
      if treeBytes > MAX_TREE_BYTES {
        return None;
      }
    }

    /** The same, as the beginning of a visit. */
    method Open(oid: Oid, prefix: bytes, depth: nat) returns (data: Option<bytes>)
      modifies `treeOids, `treeBytes
      ensures data.None? ==> WalkTree(repo, old(View()), oid, prefix, depth) == None
      ensures data.Some? ==>
                depth <= MAX_TREE_DEPTH
                && WalkTree(repo, old(View()), oid, prefix, depth) == Remaining(repo, View(), data.value, 0, {}, prefix, depth)
      ensures old(Bounded(View())) ==> Bounded(View())
    {
      ghost var s := View();
      data := ReadTree(oid, depth);
      Opening(repo, s, View(), oid, prefix, depth);
      hide *;
    }

    method Visit(oid: Oid, prefix: bytes, depth: nat) returns (ok: bool)
      modifies this
      ensures ok ==> WalkTree(repo, old(View()), oid, prefix, depth) == Some(View())
      ensures !ok ==> WalkTree(repo, old(View()), oid, prefix, depth) == None
      ensures old(Bounded(View()) && entries <= MAX_TREE_ENTRIES) && Slashes(prefix) == depth ==>
                Bounded(View()) && (ok ==> entries <= MAX_TREE_ENTRIES)
      decreases if depth > MAX_TREE_DEPTH then 0 else MAX_TREE_DEPTH + 1 - depth, 2
    {
      hide WalkTree, Remaining, Fold, Next, WalkEntry, Bounded, Ready, Slashes;
      ghost var sound := Bounded(View()) && entries <= MAX_TREE_ENTRIES && Slashes(prefix) == depth;
      ghost var target := WalkTree(repo, old(View()), oid, prefix, depth);
      var read := Open(oid, prefix, depth);
      if read.None? {
        return false;
      }
      var data := read.value;
      var position := 0;
      var local: set<bytes> := {};
      while position < |data|
        invariant 0 <= position <= |data|
        invariant target == Remaining(repo, View(), data, position, local, prefix, depth)
        invariant sound ==> Bounded(View()) && entries <= MAX_TREE_ENTRIES
        decreases |data| - position
      {
        RemainingStep(repo, View(), data, position, local, prefix, depth);
        EntryBounded(View());
        entries := entries + 1;
        if entries > MAX_TREE_ENTRIES {
          return false;
        }
        ReadyIsBounded(View());
        var step := Next(data, position);
        if step.None? {
          return false;
        }
        var taken := Take(step.value.entry, local, prefix, depth);
        if !taken {
          return false;
        }
        local := local + {Fold(repo, step.value.entry.name)};
        position := step.value.next;
      }
      RemainingEnd(repo, View(), data, position, local, prefix, depth);
      return true;
    }

    /** The part of one loop round that handles an entry, with the names seen so far in `local`. */
    method Take(e: Entry, local: set<bytes>, prefix: bytes, depth: nat) returns (ok: bool)
      requires depth <= MAX_TREE_DEPTH
      modifies this
      ensures ok ==> WalkEntry(repo, old(View()), e, local, prefix, depth) == Some(View())
      ensures !ok ==> WalkEntry(repo, old(View()), e, local, prefix, depth) == None
      ensures old(Ready(View())) && Slashes(prefix) == depth ==> Bounded(View()) && (ok ==> entries <= MAX_TREE_ENTRIES)
      decreases MAX_TREE_DEPTH + 1 - depth, 1
    {
      hide SafePath, Fold, WalkFile, WalkDirectory, Bounded, Ready, Slashes, Parts;
      ReadyIsBounded(View());
      if !repo.isText(e.name) || SLASH in e.name {
        return false;
      }
      var full := prefix + e.name;
      DepthBelow(prefix, e.name);
      if !SafePath(repo, full) {
        return false;
      }
      var folded := Fold(repo, e.name);
      if folded in local {
        return false;
      }
      if e.mode == MODE_DIR {
        ok := TakeDirectory(e, full, depth);
      } else if e.mode == MODE_FILE || e.mode == MODE_EXEC {
        ok := TakeFile(e, full);
      } else {
        ok := false;
      }
    }

    /** A directory entry: it is recorded, then visited. */
    method TakeDirectory(e: Entry, full: bytes, depth: nat) returns (ok: bool)
      requires depth <= MAX_TREE_DEPTH
      modifies this
      ensures ok ==> WalkDirectory(repo, old(View()), e, full, depth) == Some(View())
      ensures !ok ==> WalkDirectory(repo, old(View()), e, full, depth) == None
      ensures old(Ready(View())) && |Parts(full)| == Slashes(full + [SLASH]) == depth + 1 ==>
                Bounded(View()) && (ok ==> entries <= MAX_TREE_ENTRIES)
      decreases MAX_TREE_DEPTH + 1 - depth, 0
    {
      hide WalkTree, Bounded, Ready, Slashes, Parts;
      ReadyIsBounded(View());
      DirectoryBounded(View(), full);
      directories := directories + {full};
      ok := Visit(e.oid, full + [SLASH], depth + 1);
    }

    /** A file entry: the bounded read of its blob. */
    method TakeFile(e: Entry, full: bytes) returns (ok: bool)
      modifies `files, `aggregateBlobs
      ensures ok ==> WalkFile(repo, old(View()), e, full) == Some(View())
      ensures !ok ==> WalkFile(repo, old(View()), e, full) == None
      ensures old(Ready(View())) && |Parts(full)| <= MAX_TREE_DEPTH + 1 ==> Bounded(View())
    {
      hide Fetch, Bounded, Ready, Parts;
      ReadyIsBounded(View());
      if full in files {
        return false;
      }
      var remainingBlobs := if MAX_BLOB_BYTES < MAX_AGGREGATE_BLOB_BYTES - aggregateBlobs then MAX_BLOB_BYTES
                            else MAX_AGGREGATE_BLOB_BYTES - aggregateBlobs;
      if remainingBlobs <= 0 {
        return false;
      }
      var blob := Fetch(repo.blobs, repo.blobDigest, e.oid, remainingBlobs);
      if blob.None? {
        return false;
      }
      FileBounded(View(), full, File(e.mode, blob.value));
      aggregateBlobs := aggregateBlobs + |blob.value|;
      if |blob.value| > MAX_BLOB_BYTES || aggregateBlobs > MAX_AGGREGATE_BLOB_BYTES {
        return false;
      }
      files := files[full := File(e.mode, blob.value)];
      ok := true;
    }

    /** For any store, the accumulators end within their bounds, whether the tree is accepted or refused. */
    method Run(root: Oid) returns (ok: bool)
      requires View() == START
      modifies this
      ensures ok ==> Walk(repo, root) == Some(View())
      ensures !ok ==> Walk(repo, root) == None
      ensures Bounded(View()) && (ok ==> entries <= MAX_TREE_ENTRIES)
    {
      hide Bounded;
      StartBounded();
      ok := Visit(root, [], 0);
      if ok && treeBytes + aggregateBlobs > MAX_CANDIDATE_TREE_BYTES {
        ok := false;
      }
    }
  }
}
