/**
 What a finished traversal guarantees, for every object store, cyclic ones included: it recorded
 exactly the paths that path lookup resolves, and these are closed, disjoint and distinct under
 case folding.
 */
module TreeWalkTheorems {
  import opened Bytes
  import opened GitTree
  import opened TreeWalk

  // ---------- path lookup, the reference ----------

  function Body(repo: Repo, oid: Oid): Option<seq<Entry>> {
    if oid in repo.trees then Parse(repo.trees[oid]) else None
  }

  /** The entry a path names below a tree, component by component. */
  function Lookup(repo: Repo, oid: Oid, path: bytes): Option<Entry>
    decreases |path|, 1, 0
  {
    if Body(repo, oid).None? then None else LookupIn(repo, Body(repo, oid).value, path)
  }

  function LookupIn(repo: Repo, es: seq<Entry>, path: bytes): Option<Entry>
    decreases |path|, 0, |es|
  {
    if es == [] then None
    else if Head(path) != es[0].name then LookupIn(repo, es[1..], path)
    else Descend(repo, es[0], path)
  }

  function Descend(repo: Repo, e: Entry, path: bytes): Option<Entry>
    requires Head(path) == e.name
    decreases |path|, 0, 0
  {
    if path == e.name then Some(e)
    else if e.mode == MODE_DIR then Lookup(repo, e.oid, path[|e.name| + 1..])
    else None
  }

  predicate IsDir(found: Option<Entry>) {
    found.Some? && found.value.mode == MODE_DIR
  }

  predicate IsFile(found: Option<Entry>) {
    found.Some? && (found.value.mode == MODE_FILE || found.value.mode == MODE_EXEC)
  }

  /** What the tree at `prefix` says about a full path. */
  function LookupBelow(repo: Repo, oid: Oid, prefix: bytes, path: bytes): Option<Entry> {
    if StartsWith(path, prefix) then Lookup(repo, oid, path[|prefix|..]) else None
  }

  function LookupInBelow(repo: Repo, es: seq<Entry>, prefix: bytes, path: bytes): Option<Entry> {
    if StartsWith(path, prefix) then LookupIn(repo, es, path[|prefix|..]) else None
  }

  // ---------- well-formed names ----------

  predicate NamesOk(repo: Repo, es: seq<Entry>, local: set<bytes>)
    decreases |es|
  {
    es == []
    || (es[0].name != [] && SLASH !in es[0].name && Fold(repo, es[0].name) !in local
        && NamesOk(repo, es[1..], local + {Fold(repo, es[0].name)}))
  }

  lemma {:induction false} NamesAreFresh(repo: Repo, es: seq<Entry>, local: set<bytes>, i: nat)
    requires NamesOk(repo, es, local) && i < |es|
    ensures es[i].name != [] && SLASH !in es[i].name && Fold(repo, es[i].name) !in local
    decreases |es|
  {
    if i > 0 { NamesAreFresh(repo, es[1..], local + {Fold(repo, es[0].name)}, i - 1); }
  }

  /** Only the entry with the right name can answer, and a name already used in `local` has no entry. */
  lemma {:induction false} LookupNeedsName(repo: Repo, es: seq<Entry>, local: set<bytes>, path: bytes)
    requires NamesOk(repo, es, local) && Fold(repo, Head(path)) in local
    ensures LookupIn(repo, es, path) == None
    decreases |es|
  {
    if es != [] { LookupNeedsName(repo, es[1..], local + {Fold(repo, es[0].name)}, path); }
  }

  /** Every tree that the lookup of `path` passes through has usable, fold-distinct names. */
  predicate CleanAlong(repo: Repo, oid: Oid, path: bytes)
    decreases |path|
  {
    && Body(repo, oid).Some?
    && NamesOk(repo, Body(repo, oid).value, {})
    && forall i :: 0 <= i < |Body(repo, oid).value| ==> CleanBelow(repo, Body(repo, oid).value[i], path)
  }

  predicate CleanBelow(repo: Repo, e: Entry, path: bytes)
    decreases |path|, 0
  {
    Head(path) == e.name && path != e.name && e.mode == MODE_DIR ==> CleanAlong(repo, e.oid, path[|e.name| + 1..])
  }

  predicate Placed(prefix: bytes) {
    prefix == [] || prefix[|prefix| - 1] == SLASH
  }

  lemma SafeName(repo: Repo, prefix: bytes, name: bytes)
    requires SafePath(repo, prefix + name) && Placed(prefix)
    ensures name != []
  {
    if name == [] {
      assert prefix + name == prefix;
      LastPartEmpty(prefix);
    }
  }

  lemma {:induction false} LastPartEmpty(path: bytes)
    requires path != [] && path[|path| - 1] == SLASH
    ensures Parts(path)[|Parts(path)| - 1] == []
    decreases |path|
  {
    var h := Head(path);
    if |h| + 1 < |path| {
      assert path[|h| + 1..][|path| - |h| - 2] == SLASH;
      LastPartEmpty(path[|h| + 1..]);
    } else {
      assert path[|h| + 1..] == [];
      assert Parts([]) == [[]];
    }
  }

  /** The subtree of a directory entry was walked from some state of the same traversal. */
  ghost predicate Walked(repo: Repo, e: Entry, prefix: bytes, depth: nat) {
    e.mode == MODE_DIR ==> exists st :: WalkedFrom(repo, st, e, prefix, depth)
  }

  predicate WalkedFrom(repo: Repo, st: State, e: Entry, prefix: bytes, depth: nat) {
    WalkTree(repo, st, e.oid, prefix + e.name + [SLASH], depth + 1).Some?
  }

  lemma {:induction false} EntriesAreOk(repo: Repo, st: State, es: seq<Entry>, local: set<bytes>, prefix: bytes, depth: nat)
    requires Placed(prefix) && depth <= MAX_TREE_DEPTH
    requires WalkEntries(repo, st, es, local, prefix, depth).Some?
    ensures NamesOk(repo, es, local)
    ensures forall i :: 0 <= i < |es| ==> Walked(repo, es[i], prefix, depth)
    decreases |es|
  {
    hide SafePath, Fold, WalkTree, Fetch;
    if es != [] {
      var e := es[0];
      var middle := WalkEntry(repo, st.(entries := st.entries + 1), e, local, prefix, depth).value;
      SafeName(repo, prefix, e.name);
      EntriesAreOk(repo, middle, es[1..], local + {Fold(repo, e.name)}, prefix, depth);
      var st' := st.(entries := st.entries + 1);
      DirectoryIsTree(repo, st', e, prefix + e.name, depth);
      assert e.mode == MODE_DIR
             ==> WalkedFrom(repo, st'.(directories := st'.directories + {prefix + e.name}), e, prefix, depth);
      forall i | 0 <= i < |es| ensures Walked(repo, es[i], prefix, depth) {
        if i > 0 { assert es[i] == es[1..][i - 1]; }
      }
    }
  }

  lemma {:induction false} TreeIsClean(repo: Repo, st: State, oid: Oid, prefix: bytes, depth: nat, path: bytes)
    requires Placed(prefix) && WalkTree(repo, st, oid, prefix, depth).Some?
    ensures CleanAlong(repo, oid, path)
    decreases |path|
  {
    hide WalkTree, WalkEntries, NamesOk, SafePath, Parse;
    var es := TreeBody(repo, st, oid, prefix, depth);
    forall i | 0 <= i < |es| ensures CleanBelow(repo, es[i], path) {
      var e := es[i];
      if Head(path) == e.name && path != e.name && e.mode == MODE_DIR {
        assert Walked(repo, e, prefix, depth);
        var st' :| WalkedFrom(repo, st', e, prefix, depth);
        TreeIsClean(repo, st', e.oid, prefix + e.name + [SLASH], depth + 1, path[|e.name| + 1..]);
      }
    }
  }

  lemma TreeBody(repo: Repo, st: State, oid: Oid, prefix: bytes, depth: nat) returns (es: seq<Entry>)
    requires Placed(prefix) && WalkTree(repo, st, oid, prefix, depth).Some?
    ensures Body(repo, oid) == Some(es) && NamesOk(repo, es, {})
    ensures forall i :: 0 <= i < |es| ==> Walked(repo, es[i], prefix, depth)
    ensures depth <= MAX_TREE_DEPTH && oid in repo.trees
    ensures WalkTree(repo, st, oid, prefix, depth)
            == WalkEntries(repo, st.(seen := st.seen + {oid}, treeBytes := st.treeBytes + |repo.trees[oid]|), es, {}, prefix, depth)
  {
    hide WalkEntries, NamesOk, Parse, Walked;
    es := Parse(repo.trees[oid]).value;
    EntriesAreOk(repo, st.(seen := st.seen + {oid}, treeBytes := st.treeBytes + |repo.trees[oid]|), es, {}, prefix, depth);
  }

  // ---------- the recorded paths are the resolved ones ----------

  /** `after` records at `path` what `st` records and what `found` adds. */
  ghost predicate Records(repo: Repo, st: State, after: State, found: Option<Entry>, path: bytes) {
    && (path in after.directories <==> path in st.directories || IsDir(found))
    && (path in after.files <==> path in st.files || IsFile(found))
    && (path in after.files.Keys + after.directories ==> path in st.files.Keys + st.directories || SafePath(repo, path))
    && (path in st.files ==> !IsFile(found) && path in after.files && after.files[path] == st.files[path])
    && (IsFile(found) && path in after.files && path !in st.files
        ==> found.value.oid in repo.blobs && after.files[path] == File(found.value.mode, repo.blobs[found.value.oid]))
  }

  function EntryBelow(repo: Repo, e: Entry, prefix: bytes, path: bytes): Option<Entry> {
    if StartsWith(path, prefix) && Head(path[|prefix|..]) == e.name then Descend(repo, e, path[|prefix|..]) else None
  }

  lemma {:induction false} TreeRecords(repo: Repo, st: State, oid: Oid, prefix: bytes, depth: nat, path: bytes)
    requires Placed(prefix) && WalkTree(repo, st, oid, prefix, depth).Some?
    ensures Records(repo, st, WalkTree(repo, st, oid, prefix, depth).value, LookupBelow(repo, oid, prefix, path), path)
    decreases if depth > MAX_TREE_DEPTH then 0 else MAX_TREE_DEPTH + 1 - depth, 1, 0
  {
    hide WalkTree, WalkEntries, NamesOk, Walked, LookupIn, Parse, SafePath;
    var es := TreeBody(repo, st, oid, prefix, depth);
    EntriesRecord(repo, st.(seen := st.seen + {oid}, treeBytes := st.treeBytes + |repo.trees[oid]|), es, {}, prefix, depth, path);
  }

  lemma {:induction false} EntriesRecord(repo: Repo, st: State, es: seq<Entry>, local: set<bytes>, prefix: bytes, depth: nat, path: bytes)
    requires Placed(prefix) && depth <= MAX_TREE_DEPTH && NamesOk(repo, es, local)
    requires WalkEntries(repo, st, es, local, prefix, depth).Some?
    ensures Records(repo, st, WalkEntries(repo, st, es, local, prefix, depth).value, LookupInBelow(repo, es, prefix, path), path)
    decreases MAX_TREE_DEPTH + 1 - depth, 0, |es|
  {
    hide WalkEntry, Fold, Descend, SafePath;
    if es != [] {
      var e := es[0];
      var st' := st.(entries := st.entries + 1);
      var middle := WalkEntry(repo, st', e, local, prefix, depth).value;
      EntryRecords(repo, st', e, local, prefix, depth, path);
      var local' := local + {Fold(repo, e.name)};
      EntriesRecord(repo, middle, es[1..], local', prefix, depth, path);
      if StartsWith(path, prefix) && Head(path[|prefix|..]) == e.name {
        LookupNeedsName(repo, es[1..], local', path[|prefix|..]);
      }
    }
  }

  lemma {:induction false} EntryRecords(repo: Repo, st: State, e: Entry, local: set<bytes>, prefix: bytes, depth: nat, path: bytes)
    requires Placed(prefix) && depth <= MAX_TREE_DEPTH && e.name != [] && SLASH !in e.name
    requires WalkEntry(repo, st, e, local, prefix, depth).Some?
    ensures Records(repo, st, WalkEntry(repo, st, e, local, prefix, depth).value, EntryBelow(repo, e, prefix, path), path)
    decreases MAX_TREE_DEPTH + 1 - depth, 0, 0
  {
    hide WalkTree, SafePath, Fold, Lookup, Records, StartsWith, Fetch;
    if e.mode == MODE_DIR {
      var full := prefix + e.name;
      var grown := st.(directories := st.directories + {full});
      TreeRecords(repo, grown, e.oid, full + [SLASH], depth + 1, path);
      DirRecords(repo, st, WalkEntry(repo, st, e, local, prefix, depth).value, e, prefix, path);
    } else {
      FileRecords(repo, st, e, local, prefix, depth, path);
    }
  }

  lemma DirRecords(repo: Repo, st: State, after: State, e: Entry, prefix: bytes, path: bytes)
    requires e.name != [] && SLASH !in e.name && e.mode == MODE_DIR && SafePath(repo, prefix + e.name)
    requires Records(repo, st.(directories := st.directories + {prefix + e.name}), after,
                     LookupBelow(repo, e.oid, prefix + e.name + [SLASH], path), path)
    ensures Records(repo, st, after, EntryBelow(repo, e, prefix, path), path)
  {
    hide SafePath, Lookup, StartsWith;
    PathSplits(e, prefix, path);
  }

  lemma FileRecords(repo: Repo, st: State, e: Entry, local: set<bytes>, prefix: bytes, depth: nat, path: bytes)
    requires depth <= MAX_TREE_DEPTH && e.name != [] && SLASH !in e.name && e.mode != MODE_DIR
    requires WalkEntry(repo, st, e, local, prefix, depth).Some?
    ensures Records(repo, st, WalkEntry(repo, st, e, local, prefix, depth).value, EntryBelow(repo, e, prefix, path), path)
  {
    hide SafePath, Fold, Lookup, StartsWith;
    PathSplits(e, prefix, path);
  }

  /** A path below `prefix` is the entry's own path, or lies below its directory, or starts with another name. */
  lemma PathSplits(e: Entry, prefix: bytes, path: bytes)
    requires e.name != [] && SLASH !in e.name
    ensures path == prefix + e.name
            <==> StartsWith(path, prefix) && path[|prefix|..] == e.name
    ensures StartsWith(path, prefix + e.name + [SLASH])
            <==> StartsWith(path, prefix) && Head(path[|prefix|..]) == e.name && path[|prefix|..] != e.name
    ensures StartsWith(path, prefix + e.name + [SLASH])
            ==> path[|prefix + e.name + [SLASH]|..] == path[|prefix|..][|e.name| + 1..]
    ensures path == prefix + e.name ==> Head(path[|prefix|..]) == e.name
  {
    var full := prefix + e.name + [SLASH];
    if StartsWith(path, full) {
      var tail := path[|full|..];
      assert path == prefix + (e.name + [SLASH] + tail);
      assert path[|prefix|..] == e.name + [SLASH] + tail;
      HeadOf(e.name, tail);
    }
    if StartsWith(path, prefix) && Head(path[|prefix|..]) == e.name && path[|prefix|..] != e.name {
      var rest := path[|prefix|..];
      assert rest == e.name + [SLASH] + rest[|e.name| + 1..];
      assert path == full + rest[|e.name| + 1..];
    }
    if path == prefix + e.name {
      HeadOf(e.name, []);
    }
  }

  lemma {:induction false} HeadOf(name: bytes, tail: bytes)
    requires SLASH !in name
    ensures Head(name + [SLASH] + tail) == name && Head(name) == name
  {
    if name != [] {
      assert (name + [SLASH] + tail)[1..] == name[1..] + [SLASH] + tail;
      HeadOf(name[1..], tail);
    } else {
      assert name + [SLASH] + tail == [SLASH] + tail;
    }
  }

  /** The traversal records a path exactly when lookup resolves it, with the entry's mode and the blob's bytes. */
  lemma WalkIsLookup(repo: Repo, root: Oid, path: bytes)
    requires Walk(repo, root).Some?
    ensures var st := Walk(repo, root).value;
            && (path in st.directories <==> path == [] || IsDir(Lookup(repo, root, path)))
            && (path in st.files <==> IsFile(Lookup(repo, root, path)))
            && (path in st.files ==> var e := Lookup(repo, root, path).value;
                                     e.oid in repo.blobs && st.files[path] == File(e.mode, repo.blobs[e.oid]))
            && (path in st.files.Keys + st.directories ==> path == [] || SafePath(repo, path))
  {
    hide WalkTree, Lookup, SafePath;
    TreeRecords(repo, START, root, [], 0, path);
    assert path[0..] == path;
  }

  // ---------- closed, disjoint, distinct under folding ----------

  /** The path without its last component. */
  function Parent(path: bytes): bytes
    decreases |path|
  {
    var h := Head(path);
    if h == path then [] else
      var below := Parent(path[|h| + 1..]);
      if below == [] then h else h + [SLASH] + below
  }

  lemma {:induction false} LookupInIsEntry(repo: Repo, es: seq<Entry>, path: bytes) returns (i: nat)
    requires LookupIn(repo, es, path).Some?
    ensures i < |es| && es[i].name == Head(path) && LookupIn(repo, es, path) == Descend(repo, es[i], path)
    decreases |es|
  {
    if Head(path) == es[0].name {
      i := 0;
    } else {
      i := LookupInIsEntry(repo, es[1..], path);
      i := i + 1;
    }
  }

  lemma {:induction false} EntryIsFound(repo: Repo, es: seq<Entry>, local: set<bytes>, i: nat, path: bytes)
    requires NamesOk(repo, es, local) && i < |es| && es[i].name == Head(path)
    ensures LookupIn(repo, es, path) == Descend(repo, es[i], path)
    decreases |es|
  {
    if i > 0 {
      NamesAreFresh(repo, es[1..], local + {Fold(repo, es[0].name)}, i - 1);
      EntryIsFound(repo, es[1..], local + {Fold(repo, es[0].name)}, i - 1, path);
    }
  }

  /** Whatever is found below the root lies in a directory that is found too. */
  lemma {:induction false} ParentIsFound(repo: Repo, oid: Oid, path: bytes)
    requires CleanAlong(repo, oid, path) && Lookup(repo, oid, path).Some?
    ensures Parent(path) == [] || IsDir(Lookup(repo, oid, Parent(path)))
    decreases |path|
  {
    hide NamesOk;
    var es := Body(repo, oid).value;
    var i := LookupInIsEntry(repo, es, path);
    var e, h := es[i], Head(path);
    NamesAreFresh(repo, es, {}, i);
    if path != h {
      var rest := path[|h| + 1..];
      assert CleanBelow(repo, e, path);
      ParentIsFound(repo, e.oid, rest);
      var below := Parent(rest);
      if below == [] {
        HeadOf(h, []);
        EntryIsFound(repo, es, {}, i, h);
      } else {
        HeadOf(h, below);
        EntryIsFound(repo, es, {}, i, h + [SLASH] + below);
        assert (h + [SLASH] + below)[|h| + 1..] == below;
      }
    }
  }

  /** The fold maps every character to something without a slash, and the slash to itself. */
  predicate SlashPreserving(repo: Repo) {
    repo.fold(SLASH) == [SLASH] && forall c: byte :: c != SLASH ==> SLASH !in repo.fold(c)
  }

  lemma {:induction false} FoldSplits(repo: Repo, path: bytes)
    requires SlashPreserving(repo)
    ensures var h, folded := Head(path), Fold(repo, path);
            Head(folded) == Fold(repo, h)
            && (h == path <==> Head(folded) == folded)
            && (h != path ==> |Head(folded)| < |folded| && folded[|Head(folded)| + 1..] == Fold(repo, path[|h| + 1..]))
  {
    if path != [] {
      if path[0] == SLASH {
        assert Fold(repo, path) == [SLASH] + Fold(repo, path[1..]);
      } else {
        FoldSplits(repo, path[1..]);
        HeadPrefix(repo.fold(path[0]), Fold(repo, path[1..]));
        assert Head(path) == [path[0]] + Head(path[1..]);
        if Head(path) != path {
          assert path[1..][|Head(path[1..])| + 1..] == path[|Head(path)| + 1..];
        }
      }
    }
  }

  lemma {:induction false} HeadPrefix(a: bytes, b: bytes)
    requires SLASH !in a
    ensures Head(a + b) == a + Head(b)
    ensures |Head(b)| < |b| ==> (a + b)[|a + Head(b)| + 1..] == b[|Head(b)| + 1..]
  {
    if a == [] {
      assert a + b == b && a + Head(b) == Head(b);
    } else {
      assert (a + b)[1..] == a[1..] + b;
      HeadPrefix(a[1..], b);
      assert a + Head(b) == [a[0]] + (a[1..] + Head(b));
    }
  }

  lemma {:induction false} NamesFoldApart(repo: Repo, es: seq<Entry>, local: set<bytes>, i: nat, j: nat)
    requires NamesOk(repo, es, local) && i < |es| && j < |es| && Fold(repo, es[i].name) == Fold(repo, es[j].name)
    ensures i == j
    decreases |es|
  {
    var local' := local + {Fold(repo, es[0].name)};
    if i == 0 {
      if j > 0 { NamesAreFresh(repo, es[1..], local', j - 1); }
    } else if j == 0 {
      NamesAreFresh(repo, es[1..], local', i - 1);
    } else {
      NamesFoldApart(repo, es[1..], local', i - 1, j - 1);
    }
  }

  /** Only sibling names are compared, yet whole paths that fold alike are equal. */
  lemma {:induction false} FoundPathsFoldApart(repo: Repo, oid: Oid, p: bytes, q: bytes)
    requires SlashPreserving(repo) && CleanAlong(repo, oid, p)
    requires Lookup(repo, oid, p).Some? && Lookup(repo, oid, q).Some? && Fold(repo, p) == Fold(repo, q)
    ensures p == q
    decreases |p|
  {
    hide NamesOk, SlashPreserving, Fold;
    var es := Body(repo, oid).value;
    var i := LookupInIsEntry(repo, es, p);
    var j := LookupInIsEntry(repo, es, q);
    FoldSplits(repo, p);
    FoldSplits(repo, q);
    NamesFoldApart(repo, es, {}, i, j);
    SplitAtHead(p);
    SplitAtHead(q);
    if p != Head(p) {
      assert CleanBelow(repo, es[i], p);
      FoundPathsFoldApart(repo, es[i].oid, p[|Head(p)| + 1..], q[|Head(p)| + 1..]);
    }
  }

  lemma SplitAtHead(path: bytes)
    ensures path == Head(path) || path == Head(path) + [SLASH] + path[|Head(path)| + 1..]
  {
  }

  ghost predicate FoldApart(repo: Repo, paths: set<bytes>) {
    forall p, q :: p in paths && q in paths && Fold(repo, p) == Fold(repo, q) ==> p == q
  }

  /**
   A finished traversal: files and directories are disjoint, every recorded path lies in a recorded
   directory, and no two recorded paths fold alike.
   */
  lemma WalkIsClosedAndDistinct(repo: Repo, root: Oid)
    requires SlashPreserving(repo) && Walk(repo, root).Some?
    ensures var st := Walk(repo, root).value;
            && st.files.Keys !! st.directories
            && (forall p :: p in st.files.Keys + st.directories ==> Parent(p) in st.directories)
            && FoldApart(repo, st.files.Keys + st.directories - {[]})
  {
    hide SlashPreserving, WalkTree, Lookup, CleanAlong, Fold, Walk;
    var st := Walk(repo, root).value;
    var recorded := st.files.Keys + st.directories;
    RootHasNoName(repo, root);
    forall p | p in recorded
      ensures !(p in st.files && p in st.directories) && Parent(p) in st.directories
    {
      WalkIsLookup(repo, root, p);
      RootIsClean(repo, root, p);
      if p != [] {
        ParentIsFound(repo, root, p);
        WalkIsLookup(repo, root, Parent(p));
      } else {
        WalkIsLookup(repo, root, []);
      }
    }
    forall p, q | p in recorded - {[]} && q in recorded - {[]} && Fold(repo, p) == Fold(repo, q) ensures p == q {
      WalkIsLookup(repo, root, p);
      WalkIsLookup(repo, root, q);
      RootIsClean(repo, root, p);
      FoundPathsFoldApart(repo, root, p, q);
    }
  }

  lemma RootIsClean(repo: Repo, root: Oid, path: bytes)
    requires Walk(repo, root).Some?
    ensures CleanAlong(repo, root, path)
  {
    TreeIsClean(repo, START, root, [], 0, path);
  }

  lemma RootHasNoName(repo: Repo, root: Oid)
    requires Walk(repo, root).Some?
    ensures Lookup(repo, root, []) == None
  {
    hide WalkTree, NamesOk;
    RootIsClean(repo, root, []);
    if Lookup(repo, root, []).Some? {
      var i := LookupInIsEntry(repo, Body(repo, root).value, []);
      NamesAreFresh(repo, Body(repo, root).value, {}, i);
    }
  }

  // ---------- budgets ----------

  /** The budgets of a traversal that is accepted; a directory has at most the depth in components, a file one more. */
  predicate Within(st: State) {
    && |st.seen| <= MAX_TREE_OBJECTS && st.treeBytes <= MAX_TREE_BYTES
    && st.entries <= MAX_TREE_ENTRIES && st.blobBytes <= MAX_AGGREGATE_BLOB_BYTES
    && |st.files| + |st.directories| <= st.entries + 1
    && (forall p :: p in st.files ==> |st.files[p].data| <= MAX_BLOB_BYTES && |Parts(p)| <= MAX_TREE_DEPTH + 1)
    && (forall p :: p in st.directories ==> |Parts(p)| <= MAX_TREE_DEPTH)
  }

  lemma {:induction false} TreeWithin(repo: Repo, st: State, oid: Oid, prefix: bytes, depth: nat)
    requires Within(st) && Slashes(prefix) == depth && WalkTree(repo, st, oid, prefix, depth).Some?
    ensures Within(WalkTree(repo, st, oid, prefix, depth).value)
    decreases if depth > MAX_TREE_DEPTH then 0 else MAX_TREE_DEPTH + 1 - depth, 1, 0
  {
    hide WalkEntries, Parse, Within, Slashes;
    WithinCounts(st);
    var data := repo.trees[oid];
    var st' := st.(seen := st.seen + {oid}, treeBytes := st.treeBytes + |data|);
    ReadWithin(st, oid, |data|);
    EntriesWithin(repo, st', Parse(data).value, {}, prefix, depth);
  }

  /** The single steps that keep the budgets: a tree read, a directory entry, a file entry. */
  lemma ReadWithin(st: State, oid: Oid, size: nat)
    requires Within(st) && |st.seen| < MAX_TREE_OBJECTS && st.treeBytes + size <= MAX_TREE_BYTES
    ensures Within(st.(seen := st.seen + {oid}, treeBytes := st.treeBytes + size))
  {
    hide Parts;
  }

  lemma DirectoryWithin(st: State, full: bytes)
    requires Within(st) && st.entries < MAX_TREE_ENTRIES && |Parts(full)| <= MAX_TREE_DEPTH
    ensures Within(st.(entries := st.entries + 1, directories := st.directories + {full}))
  {
    hide Parts;
  }

  lemma FileWithin(st: State, full: bytes, file: File)
    requires Within(st) && st.entries < MAX_TREE_ENTRIES && |Parts(full)| <= MAX_TREE_DEPTH + 1
    requires |file.data| <= MAX_BLOB_BYTES && st.blobBytes + |file.data| <= MAX_AGGREGATE_BLOB_BYTES
    ensures Within(st.(entries := st.entries + 1, blobBytes := st.blobBytes + |file.data|, files := st.files[full := file]))
  {
    hide Parts;
    assert st.files[full := file].Keys == st.files.Keys + {full};
    assert |st.files[full := file]| == |st.files[full := file].Keys| && |st.files| == |st.files.Keys|;
  }

  lemma {:induction false} EntriesWithin(repo: Repo, st: State, es: seq<Entry>, local: set<bytes>, prefix: bytes, depth: nat)
    requires Within(st) && Slashes(prefix) == depth <= MAX_TREE_DEPTH && WalkEntries(repo, st, es, local, prefix, depth).Some?
    ensures Within(WalkEntries(repo, st, es, local, prefix, depth).value)
    decreases MAX_TREE_DEPTH + 1 - depth, 0, |es|
  {
    hide WalkEntry, Fold, Within, Slashes;
    if es != [] {
      var after := WalkEntry(repo, st.(entries := st.entries + 1), es[0], local, prefix, depth).value;
      EntryWithin(repo, st, es[0], local, prefix, depth);
      EntriesWithin(repo, after, es[1..], local + {Fold(repo, es[0].name)}, prefix, depth);
    }
  }

  lemma {:induction false} EntryWithin(repo: Repo, st: State, e: Entry, local: set<bytes>, prefix: bytes, depth: nat)
    requires Within(st) && Slashes(prefix) == depth <= MAX_TREE_DEPTH && st.entries + 1 <= MAX_TREE_ENTRIES
    requires WalkEntry(repo, st.(entries := st.entries + 1), e, local, prefix, depth).Some?
    ensures Within(WalkEntry(repo, st.(entries := st.entries + 1), e, local, prefix, depth).value)
    decreases MAX_TREE_DEPTH + 1 - depth, 0, 0
  {
    hide WalkTree, SafePath, Fold, Within, Slashes, Parts;
    WithinCounts(st);
    DepthBelow(prefix, e.name);
    var st' := st.(entries := st.entries + 1);
    var full := prefix + e.name;
    var after := WalkEntry(repo, st', e, local, prefix, depth).value;
    if e.mode == MODE_DIR {
      var grown := st'.(directories := st'.directories + {full});
      VisitsAreShallow(repo, grown, e.oid, full + [SLASH], depth + 1);
      DirectoryWithin(st, full);
      TreeWithin(repo, grown, e.oid, full + [SLASH], depth + 1);
    } else {
      FileWithin(st, full, after.files[full]);
    }
  }

  lemma VisitsAreShallow(repo: Repo, st: State, oid: Oid, prefix: bytes, depth: nat)
    requires WalkTree(repo, st, oid, prefix, depth).Some?
    ensures depth <= MAX_TREE_DEPTH
  {
    hide WalkEntries, Parse, Fetch;
  }

  lemma WithinCounts(st: State)
    requires Within(st)
    ensures st.treeBytes <= MAX_TREE_BYTES && st.blobBytes <= MAX_AGGREGATE_BLOB_BYTES && |st.seen| <= MAX_TREE_OBJECTS
    ensures st.entries <= MAX_TREE_ENTRIES
  {
  }

  /** Every finished traversal stayed within its depth, object, byte and entry budgets. */
  lemma WalkWithinBudgets(repo: Repo, root: Oid)
    requires Walk(repo, root).Some?
    ensures Within(Walk(repo, root).value)
    ensures Walk(repo, root).value.treeBytes + Walk(repo, root).value.blobBytes <= MAX_CANDIDATE_TREE_BYTES
  {
    hide WalkTree;
    StartBounded();
    ComponentsAreSlashes([]);
    assert START.directories == {[]};
    assert START.files.Keys == {} && |START.directories| == 1;
    TreeWithin(repo, START, root, [], 0);
  }

  /** Whatever is recorded is a safe path, so it holds no control characters and no NUL byte. */
  lemma {:induction false} SafePathIsNulFree(repo: Repo, path: bytes)
    requires forall i :: 0 <= i < |Parts(path)| ==> SafePart(repo, Parts(path)[i])
    ensures forall i :: 0 <= i < |path| ==> path[i] >= 32
    decreases |path|
  {
    hide SafePart, Parts, Head;
    var h := Head(path);
    PartsUnfold(path);
    SafePartIsPrintable(repo, Parts(path)[0]);
    if h != path {
      var rest := path[|h| + 1..];
      assert forall i :: 0 <= i < |Parts(rest)| ==> Parts(rest)[i] == Parts(path)[i + 1];
      SafePathIsNulFree(repo, rest);
      assert path == h + [SLASH] + rest;
      forall i | 0 <= i < |path| ensures path[i] >= 32 {
        assert i > |h| ==> path[i] == rest[i - |h| - 1];
      }
    }
  }

  lemma PartsUnfold(path: bytes)
    ensures Parts(path) == if Head(path) == path then [path] else [Head(path)] + Parts(path[|Head(path)| + 1..])
  {
  }

  lemma SafePartIsPrintable(repo: Repo, part: bytes)
    requires SafePart(repo, part)
    ensures forall i :: 0 <= i < |part| ==> part[i] >= 32
  {
  }
}
