/** The ordered visible manifest: closed under ancestors, a depth-first preorder, and archivable. */
module VisibleManifest {
  import opened Bytes
  import GitTree
  import TreeWalk
  import TreeWalkTheorems
  import opened UstarHeader
  import TarArchive

  const MAX_VISIBLE_MEMBERS := 4096

  // ---------- the order ----------

  lemma {:induction false} PrefixComesFirst(prefix: bytes, s: bytes)
    requires StartsWith(s, prefix)
    ensures Leq(prefix, s)
  {
    if prefix != [] {
      assert s[1..][..|prefix| - 1] == prefix[1..];
      PrefixComesFirst(prefix[1..], s[1..]);
    }
  }

  /** Strings with a common prefix are neighbours in the order. */
  lemma {:induction false} PrefixIsConvex(prefix: bytes, a: bytes, b: bytes, c: bytes)
    requires StartsWith(a, prefix) && StartsWith(c, prefix) && Leq(a, b) && Leq(b, c)
    ensures StartsWith(b, prefix)
  {
    if prefix != [] {
      assert a[1..][..|prefix| - 1] == prefix[1..] && c[1..][..|prefix| - 1] == prefix[1..];
      assert a[0] == prefix[0] == c[0];
      PrefixIsConvex(prefix[1..], a[1..], b[1..], c[1..]);
      assert b == [b[0]] + b[1..] && prefix == [prefix[0]] + prefix[1..];
      assert b[..|prefix|] == [b[0]] + b[1..][..|prefix| - 1];
    }
  }

  /** The sort key: directories count with their final slash. */
  function Key(directories: set<bytes>, path: bytes): bytes {
    path + (if path in directories then [SLASH] else [])
  }

  predicate Ordered(directories: set<bytes>, s: seq<bytes>) {
    forall i, j :: 0 <= i < j < |s| ==> Leq(Key(directories, s[i]), Key(directories, s[j])) && s[i] != s[j]
  }

  /** `sorted(paths, key=...)`. */
  method SortPaths(directories: set<bytes>, paths: set<bytes>) returns (s: seq<bytes>)
    ensures Ordered(directories, s) && forall p :: p in s <==> p in paths
  {
    s := [];
    var rest := paths;
    while rest != {}
      invariant rest <= paths && Ordered(directories, s)
      invariant forall p :: p in s <==> p in paths && p !in rest
      decreases |rest|
    {
      var p :| p in rest;
      s := Insert(directories, s, p);
      rest := rest - {p};
    }
  }

  method Insert(directories: set<bytes>, s: seq<bytes>, p: bytes) returns (t: seq<bytes>)
    requires Ordered(directories, s) && p !in s
    ensures Ordered(directories, t) && forall q :: q in t <==> q in s || q == p
  {
    var k := 0;
    while k < |s| && Leq(Key(directories, s[k]), Key(directories, p))
      invariant 0 <= k <= |s|
      invariant forall i :: 0 <= i < k ==> Leq(Key(directories, s[i]), Key(directories, p))
    {
      k := k + 1;
    }
    t := s[..k] + [p] + s[k..];
    forall i, j | 0 <= i < j < |t| ensures Leq(Key(directories, t[i]), Key(directories, t[j])) && t[i] != t[j] {
      if i == k {
        assert t[j] == s[j - 1];
        LeqTotal(Key(directories, p), Key(directories, s[k]));
        if j - 1 > k { LeqTransitive(Key(directories, p), Key(directories, s[k]), Key(directories, s[j - 1])); }
      }
    }
    assert forall q :: q in s ==> q in s[..k] || q in s[k..];
  }

  // ---------- attributes and members ----------

  datatype Setting = Set | Unset | Unspecified | Other

  datatype Attributes = Attributes(exportIgnore: Setting, exportSubst: Setting)

  /** The committed attributes of a path; None when the attribute query itself is refused. */
  type AttributeOf = bytes -> Option<Attributes>

  predicate Usable(attribute: AttributeOf, path: bytes) {
    var a := attribute(path);
    a.Some? && a.value.exportIgnore != Other && a.value.exportSubst != Other && a.value.exportSubst != Set
  }

  predicate Ignored(attribute: AttributeOf, path: bytes) {
    attribute(path).Some? && attribute(path).value.exportIgnore == Set
  }

  predicate Under(directory: bytes, path: bytes) {
    StartsWith(path, directory + [SLASH])
  }

  function AllPaths(st: TreeWalk.State): set<bytes> {
    st.files.Keys + st.directories - {[]}
  }

  ghost predicate Included(st: TreeWalk.State, attribute: AttributeOf, path: bytes) {
    forall omitted :: omitted in AllPaths(st) && Ignored(attribute, omitted) ==> path != omitted && !Under(omitted, path)
  }

  function MemberOf(st: TreeWalk.State, digest: bytes -> bytes, path: bytes): Member
    requires path in st.directories || path in st.files
  {
    if path in st.directories then Member(path, Dir, TreeWalk.MODE_DIR, 509, 0, None)
    else
      var file := st.files[path];
      Member(path, File, file.mode, if file.mode == TreeWalk.MODE_FILE then 436 else 509, |file.data|, Some(digest(file.data)))
  }

  /** The numbers of the members: 0775 for directories and executable files, 0664 for the others. */
  lemma MembersInWords(st: TreeWalk.State, digest: bytes -> bytes, path: bytes)
    requires path in st.directories || path in st.files
    ensures var m := MemberOf(st, digest, path);
            && m.path == path && (m.kind == Dir <==> path in st.directories)
            && (path in st.directories ==> m.gitMode == Literal("40000") && m.tarMode == 7 * 64 + 7 * 8 + 5 && m.size == 0 && m.digest.None?)
            && (path !in st.directories ==>
                  var f := st.files[path];
                  && m.gitMode == f.mode && m.size == |f.data| && m.digest == Some(digest(f.data))
                  && m.tarMode == if f.mode == Literal("100644") then 6 * 64 + 6 * 8 + 4 else 7 * 64 + 7 * 8 + 5)
  {
    assert Literal("40000") == [52, 48, 48, 48, 48] && Literal("100644") == [49, 48, 48, 54, 52, 52];
  }

  /** The settings that are taken, and the one that leaves a path out. */
  lemma SettingsInWords(attribute: AttributeOf, path: bytes)
    ensures Usable(attribute, path)
            <==> && attribute(path).Some? && attribute(path).value.exportIgnore in {Set, Unset, Unspecified}
                 && attribute(path).value.exportSubst in {Unset, Unspecified}
    ensures Usable(attribute, path) ==> (Ignored(attribute, path) <==> attribute(path).value.exportIgnore == Set)
  {
  }

  datatype Visible = Visible(manifest: seq<Member>, payloads: map<bytes, bytes>)

  function Root(): Member {
    Member([], Dir, TreeWalk.MODE_DIR, 509, 0, None)
  }

  ghost function IncludedPaths(st: TreeWalk.State, attribute: AttributeOf): set<bytes> {
    set p | p in AllPaths(st) && Included(st, attribute, p)
  }

  /** `order` lists the included paths in key order. */
  ghost predicate IsOrder(st: TreeWalk.State, attribute: AttributeOf, order: seq<bytes>) {
    Ordered(st.directories, order) && forall p :: p in order <==> p in IncludedPaths(st, attribute)
  }

  /** The manifest is the root directory followed by the included paths in key order; the payloads are the files'. */
  ghost predicate IsVisible(st: TreeWalk.State, attribute: AttributeOf, digest: bytes -> bytes, order: seq<bytes>, v: Visible) {
    && IsOrder(st, attribute, order)
    && |v.manifest| == |order| + 1 && v.manifest[0] == Root()
    && (forall i :: 0 <= i < |order| ==> order[i] in AllPaths(st) && v.manifest[i + 1] == MemberOf(st, digest, order[i]))
    && v.payloads.Keys == IncludedPaths(st, attribute) - st.directories
    && forall p :: p in v.payloads ==> p in st.files && v.payloads[p] == st.files[p].data
  }

  predicate Spelled(m: Member) {
    Spell(FullName(m.path, m.kind)).Some?
  }

  /** What the source demands of the committed tree beyond the traversal. */
  ghost predicate Acceptable(st: TreeWalk.State, attribute: AttributeOf, digest: bytes -> bytes) {
    && (forall p :: p in AllPaths(st) ==> Usable(attribute, p))
    && Spelled(Root()) && (forall p :: p in IncludedPaths(st, attribute) ==> Spelled(MemberOf(st, digest, p)))
    && |IncludedPaths(st, attribute)| + 1 <= 4096
  }

  lemma {:induction false} DistinctCount(directories: set<bytes>, s: seq<bytes>, paths: set<bytes>)
    requires Ordered(directories, s) && forall p :: p in s <==> p in paths
    ensures |s| == |paths|
    decreases |s|
  {
    if s == [] {
      assert paths == {};
    } else {
      var last := s[|s| - 1];
      var front := s[..|s| - 1];
      forall p ensures p in front <==> p in paths - {last} {
        if p in s && p != last {
          var i :| 0 <= i < |s| && s[i] == p;
          assert front[i] == p;
        }
      }
      assert last in paths;
      DistinctCount(directories, front, paths - {last});
    }
  }

  /** The first loop: every attribute is unambiguous, and the omitted paths are collected. */
  method CollectIgnored(st: TreeWalk.State, attribute: AttributeOf) returns (ignored: Option<set<bytes>>)
    ensures ignored.Some? <==> forall p :: p in AllPaths(st) ==> Usable(attribute, p)
    ensures ignored.Some? ==> ignored.value == set p | p in AllPaths(st) && Ignored(attribute, p)
  {
    hide Usable, Ignored;
    var omitted := {};
    var queried := SortPaths({}, AllPaths(st));
    for k := 0 to |queried|
      invariant omitted == set p | p in queried[..k] && Ignored(attribute, p)
      invariant forall p :: p in queried[..k] ==> Usable(attribute, p)
    {
      assert queried[k] in AllPaths(st) && queried[..k + 1] == queried[..k] + [queried[k]];
      if !Usable(attribute, queried[k]) {
        return None;
      }
      if Ignored(attribute, queried[k]) {
        omitted := omitted + {queried[k]};
      }
    }
    assert queried[..|queried|] == queried;
    return Some(omitted);
  }

  /** The second loop: the included paths in key order become members and payloads. */
  method Assemble(st: TreeWalk.State, attribute: AttributeOf, digest: bytes -> bytes, ignored: set<bytes>)
    returns (v: Visible, ghost order: seq<bytes>)
    requires ignored == set p | p in AllPaths(st) && Ignored(attribute, p)
    ensures IsVisible(st, attribute, digest, order, v)
  {
    hide Ignored, MemberOf, Leq, Key;
    var visible := SortPaths(st.directories, AllPaths(st));
    var manifest, payloads: map<bytes, bytes> := [Root()], map[];
    order := [];
    for k := 0 to |visible|
      invariant Ordered(st.directories, order)
      invariant forall p :: p in order <==> p in visible[..k] && Included(st, attribute, p)
      invariant |manifest| == |order| + 1 && manifest[0] == Root()
      invariant forall i :: 0 <= i < |order| ==> order[i] in AllPaths(st) && manifest[i + 1] == MemberOf(st, digest, order[i])
      invariant forall p :: p in payloads <==> p in order && p !in st.directories
      invariant forall p :: p in payloads ==> p in st.files && payloads[p] == st.files[p].data
    {
      var path := visible[k];
      assert path in AllPaths(st) && visible[..k + 1] == visible[..k] + [path];
      if forall omitted :: omitted in ignored ==> path != omitted && !Under(omitted, path) {
        assert forall omitted :: omitted in AllPaths(st) && Ignored(attribute, omitted) ==> omitted in ignored;
        assert Included(st, attribute, path);
        AppendKeepsOrder(st.directories, visible, k, order);
        order := order + [path];
        manifest := manifest + [MemberOf(st, digest, path)];
        if path !in st.directories {
          payloads := payloads[path := st.files[path].data];
        }
      } else {
        assert !Included(st, attribute, path);
      }
    }
    assert visible[..|visible|] == visible;
    v := Visible(manifest, payloads);
  }

  lemma AppendKeepsOrder(directories: set<bytes>, visible: seq<bytes>, k: nat, order: seq<bytes>)
    requires Ordered(directories, visible) && k < |visible| && Ordered(directories, order)
    requires forall p :: p in order ==> p in visible[..k]
    ensures Ordered(directories, order + [visible[k]])
  {
    hide Leq, Key;
    forall i | 0 <= i < |order|
      ensures Leq(Key(directories, order[i]), Key(directories, visible[k])) && order[i] != visible[k]
    {
      assert order[i] in visible[..k];
      var i' :| 0 <= i' < k && visible[i'] == order[i];
    }
  }

  /** `_visible_manifest`; None stands for raising. */
  method BuildManifest(st: TreeWalk.State, attribute: AttributeOf, digest: bytes -> bytes) returns (r: Option<Visible>)
    ensures r.Some? <==> Acceptable(st, attribute, digest)
    ensures r.Some? ==> exists order :: IsVisible(st, attribute, digest, order, r.value)
  {
    hide Spell, Usable, Ignored, Included, MemberOf, Ordered;
    var ignored := CollectIgnored(st, attribute);
    if ignored.None? {
      return None;
    }
    var v, order := Assemble(st, attribute, digest, ignored.value);
    DistinctCount(st.directories, order, IncludedPaths(st, attribute));
    for k := 0 to |v.manifest|
      invariant forall i :: 0 <= i < k ==> Spelled(v.manifest[i])
    {
      var fields := CanonicalNamePrefix(v.manifest[k]);
      if fields.None? {
        if k > 0 { assert order[k - 1] in IncludedPaths(st, attribute); }
        return None;
      }
    }
    forall p | p in IncludedPaths(st, attribute) ensures Spelled(MemberOf(st, digest, p)) {
      var i :| 0 <= i < |order| && order[i] == p;
      assert Spelled(v.manifest[i + 1]);
    }
    if |v.manifest| > MAX_VISIBLE_MEMBERS {
      return None;
    }
    return Some(v);
  }

  // ---------- what the order means ----------

  lemma UnderIsTransitive(a: bytes, b: bytes, c: bytes)
    requires Under(a, b) && Under(b, c)
    ensures Under(a, c)
  {
    var front := a + [SLASH];
    assert c[..|front|] == c[..|b| + 1][..|front|] == (b + [SLASH])[..|front|] == b[..|front|];
  }

  /** Omitting a path omits its subtree, and whatever is kept keeps every recorded ancestor. */
  lemma OmissionTakesSubtrees(st: TreeWalk.State, attribute: AttributeOf, p: bytes, q: bytes)
    requires p in AllPaths(st) && q in AllPaths(st) && Under(q, p)
    ensures Ignored(attribute, q) ==> !Included(st, attribute, p) && !Included(st, attribute, q)
    ensures Included(st, attribute, p) ==> Included(st, attribute, q)
  {
    if Included(st, attribute, p) {
      forall omitted | omitted in AllPaths(st) && Ignored(attribute, omitted)
        ensures q != omitted && !Under(omitted, q)
      {
        if Under(omitted, q) { UnderIsTransitive(omitted, q, p); }
      }
    }
  }

  /** A directory comes before everything below it, and nothing else stands between them. */
  lemma OrderIsPreorder(st: TreeWalk.State, order: seq<bytes>, i: nat, j: nat, k: nat)
    requires Ordered(st.directories, order) && i < |order| && j < |order| && k < |order|
    requires order[i] in st.directories && Under(order[i], order[j]) && order[j] != order[i] + [SLASH]
    ensures i < j
    ensures i < k < j ==> Under(order[i], order[k])
  {
    var d, p := order[i], order[j];
    var front := d + [SLASH];
    var keyP := Key(st.directories, p);
    assert keyP[..|front|] == p[..|front|] == front;
    PrefixComesFirst(front, keyP);
    if j < i {
      LeqAntisymmetric(keyP, front);
      assert false;
    }
    assert i != j;
    if i < k < j {
      var q := order[k];
      assert StartsWith(Key(st.directories, d), front);
      PrefixIsConvex(front, Key(st.directories, d), Key(st.directories, q), keyP);
      KeyBelow(st.directories, d, q);
    }
  }

  lemma KeyBelow(directories: set<bytes>, d: bytes, q: bytes)
    requires StartsWith(Key(directories, q), d + [SLASH])
    ensures q == d || Under(d, q)
  {
    var key, front := Key(directories, q), d + [SLASH];
    if |q| < |front| {
      assert q == key[..|d|] == key[..|front|][..|d|] == d;
    } else {
      assert q[..|front|] == key[..|front|];
    }
  }

  lemma {:induction false} ParentIsAbove(path: bytes)
    ensures var d := TreeWalkTheorems.Parent(path); d != [] ==> Under(d, path)
    decreases |path|
  {
    var h := TreeWalk.Head(path);
    if h != path {
      var rest := path[|h| + 1..];
      assert path == (h + [SLASH]) + rest;
      ParentIsAbove(rest);
      var below := TreeWalkTheorems.Parent(rest);
      if below != [] {
        UnderDeeper(h + [SLASH], below, rest);
      }
    }
  }

  lemma UnderDeeper(front: bytes, d: bytes, path: bytes)
    requires Under(d, path)
    ensures Under(front + d, front + path)
  {
    assert path == (d + [SLASH]) + path[|d| + 1..];
    assert front + path == (front + d + [SLASH]) + path[|d| + 1..];
  }

  lemma SafeHasNoFinalSlash(repo: TreeWalk.Repo, path: bytes)
    requires TreeWalk.SafePath(repo, path)
    ensures path[|path| - 1] != SLASH
  {
    if path[|path| - 1] == SLASH {
      TreeWalkTheorems.LastPartEmpty(path);
    }
  }

  /**
   For every committed tree that the traversal finishes, the visible order is closed under parents,
   each directory precedes its descendants, and the descendants form one block right after it.
   */
  lemma VisibleOrderOfWalk(repo: TreeWalk.Repo, root: GitTree.Oid, attribute: AttributeOf, order: seq<bytes>)
    requires TreeWalkTheorems.SlashPreserving(repo) && TreeWalk.Walk(repo, root).Some?
    requires IsOrder(TreeWalk.Walk(repo, root).value, attribute, order)
    ensures forall j :: 0 <= j < |order| ==>
              var d := TreeWalkTheorems.Parent(order[j]); d == [] || exists i :: 0 <= i < j && order[i] == d
    ensures forall i, j, k :: 0 <= i < |order| && 0 <= j < |order| && Under(order[i], order[j]) && i <= k <= j
              ==> i < j && (k == i || Under(order[i], order[k]))
  {
    hide TreeWalk.Walk, TreeWalkTheorems.SlashPreserving, TreeWalk.SafePath, Under, Included, Ordered;
    var st := TreeWalk.Walk(repo, root).value;
    forall i, j | 0 <= i < |order| && 0 <= j < |order| && Under(order[i], order[j])
      ensures i < j && forall k :: i < k < j ==> Under(order[i], order[k])
    {
      OrderIsRecorded(st, attribute, order);
      BlockAt(repo, root, order, i, j);
    }
    forall j | 0 <= j < |order|
      ensures var d := TreeWalkTheorems.Parent(order[j]); d == [] || exists i :: 0 <= i < j && order[i] == d
    {
      ParentComesFirst(repo, root, attribute, order, j);
    }
  }

  lemma ParentComesFirst(repo: TreeWalk.Repo, root: GitTree.Oid, attribute: AttributeOf, order: seq<bytes>, j: nat)
    requires TreeWalkTheorems.SlashPreserving(repo) && TreeWalk.Walk(repo, root).Some?
    requires IsOrder(TreeWalk.Walk(repo, root).value, attribute, order) && j < |order|
    ensures var d := TreeWalkTheorems.Parent(order[j]); d == [] || exists i :: 0 <= i < j && order[i] == d
  {
    hide TreeWalk.Walk, TreeWalkTheorems.SlashPreserving, TreeWalkTheorems.Parent, TreeWalkTheorems.FoldApart;
    hide Under, Included, Ordered, IsOrder;
    var st := TreeWalk.Walk(repo, root).value;
    var d := TreeWalkTheorems.Parent(order[j]);
    OrderIsRecorded(st, attribute, order);
    assert order[j] in order;
    assert d in st.directories by {
      TreeWalkTheorems.WalkIsClosedAndDistinct(repo, root);
    }
    ParentIsAbove(order[j]);
    if d != [] {
      OmissionTakesSubtrees(st, attribute, order[j], d);
      assert d in order;
      var i :| 0 <= i < |order| && order[i] == d;
      BlockAt(repo, root, order, i, j);
    }
  }

  lemma OrderIsRecorded(st: TreeWalk.State, attribute: AttributeOf, order: seq<bytes>)
    requires IsOrder(st, attribute, order)
    ensures Ordered(st.directories, order)
    ensures forall p :: p in order <==> p in AllPaths(st) && Included(st, attribute, p)
  {
    hide Ordered, Included;
  }

  lemma BlockAt(repo: TreeWalk.Repo, root: GitTree.Oid, order: seq<bytes>, i: nat, j: nat)
    requires TreeWalkTheorems.SlashPreserving(repo) && TreeWalk.Walk(repo, root).Some?
    requires var st := TreeWalk.Walk(repo, root).value;
             Ordered(st.directories, order) && forall p :: p in order ==> p in AllPaths(st)
    requires i < |order| && j < |order| && Under(order[i], order[j])
    ensures i < j && forall k :: i < k < j ==> Under(order[i], order[k])
  {
    hide TreeWalk.Walk, TreeWalkTheorems.SlashPreserving;
    var st := TreeWalk.Walk(repo, root).value;
    AncestorIsDirectory(repo, root, order[i], order[j]);
    TreeWalkTheorems.WalkIsLookup(repo, root, order[j]);
    assert order[j] != [];
    SafeHasNoFinalSlash(repo, order[j]);
    assert order[j] != order[i] + [SLASH];
    OrderIsPreorder(st, order, i, j, i);
    forall k | i < k < j ensures Under(order[i], order[k]) {
      OrderIsPreorder(st, order, i, j, k);
    }
  }

  /** A recorded path with something recorded below it is a directory. */
  lemma AncestorIsDirectory(repo: TreeWalk.Repo, root: GitTree.Oid, d: bytes, p: bytes)
    requires TreeWalk.Walk(repo, root).Some? && Under(d, p)
    requires d in AllPaths(TreeWalk.Walk(repo, root).value) && p in AllPaths(TreeWalk.Walk(repo, root).value)
    ensures d in TreeWalk.Walk(repo, root).value.directories
  {
    hide TreeWalk.Walk, TreeWalk.SafePath;
    TreeWalkTheorems.WalkIsLookup(repo, root, d);
    TreeWalkTheorems.WalkIsLookup(repo, root, p);
    TreeWalkTheorems.RootIsClean(repo, root, p);
    FoundAboveIsDir(repo, root, d, p);
  }

  lemma {:induction false} FoundAboveIsDir(repo: TreeWalk.Repo, oid: GitTree.Oid, d: bytes, p: bytes)
    requires TreeWalkTheorems.CleanAlong(repo, oid, p) && Under(d, p)
    requires TreeWalkTheorems.Lookup(repo, oid, d).Some? && TreeWalkTheorems.Lookup(repo, oid, p).Some?
    ensures TreeWalkTheorems.IsDir(TreeWalkTheorems.Lookup(repo, oid, d))
    decreases |p|
  {
    hide TreeWalkTheorems.NamesOk, TreeWalkTheorems.LookupIn;
    var es := TreeWalkTheorems.Body(repo, oid).value;
    var i := TreeWalkTheorems.LookupInIsEntry(repo, es, p);
    var j := TreeWalkTheorems.LookupInIsEntry(repo, es, d);
    var h := TreeWalk.Head(d);
    assert p == d + [SLASH] + p[|d| + 1..];
    assert TreeWalk.Head(p) == h && p != h by { HeadAbove(d, p[|d| + 1..]); }
    TreeWalkTheorems.EntryIsFound(repo, es, {}, j, p);
    TreeWalkTheorems.EntryIsFound(repo, es, {}, i, d);
    assert TreeWalkTheorems.CleanBelow(repo, es[i], p);
    if d != h {
      var d', p' := d[|h| + 1..], p[|h| + 1..];
      assert p' == d' + [SLASH] + p[|d| + 1..];
      FoundAboveIsDir(repo, es[i].oid, d', p');
    }
  }

  lemma {:induction false} HeadAbove(d: bytes, tail: bytes)
    ensures TreeWalk.Head(d + [SLASH] + tail) == TreeWalk.Head(d)
  {
    if d == [] {
      assert d + [SLASH] + tail == [SLASH] + tail;
    } else {
      assert (d + [SLASH] + tail)[1..] == d[1..] + [SLASH] + tail;
      HeadAbove(d[1..], tail);
    }
  }

  /** Every visible manifest of a finished traversal can be read back from its archive without loss. */
  lemma VisibleManifestIsRecoverable(repo: TreeWalk.Repo, root: GitTree.Oid, attribute: AttributeOf, digest: bytes -> bytes,
                                     order: seq<bytes>, v: Visible)
    requires TreeWalk.Walk(repo, root).Some?
    requires var st := TreeWalk.Walk(repo, root).value;
             Acceptable(st, attribute, digest) && IsVisible(st, attribute, digest, order, v)
    ensures TarArchive.AllRecoverable(v.manifest)
  {
    hide TreeWalk.Walk, Recoverable, Spell, TreeWalk.SafePath;
    var st := TreeWalk.Walk(repo, root).value;
    forall i | 0 <= i < |v.manifest| ensures Recoverable(v.manifest[i]) {
      if i > 0 {
        var path := order[i - 1];
        assert path in IncludedPaths(st, attribute);
        TreeWalkTheorems.WalkIsLookup(repo, root, path);
        SafeIsNulFree(repo, path);
      }
      NulFreeIsRecoverable(v.manifest[i]);
    }
  }

  lemma SafeIsNulFree(repo: TreeWalk.Repo, path: bytes)
    requires TreeWalk.SafePath(repo, path)
    ensures NulFree(path)
  {
    TreeWalkTheorems.SafePathIsNulFree(repo, path);
  }
}
