/** Extracting an archive into an empty directory, walking the directory in any listing order and hashing it again:
    `extract_planned_tree`, `collect_tree_files`, `hash_materialized_tree` and `materialize`. File names are
    case-sensitive. */
module TreeMaterialisation {
  import opened Wrappers
  import opened Bytes
  import opened Lists
  import PathResolution
  import opened TreeArchive
  import opened TreeArchiveCode
  import Text
  import Utf8

  // A path below the extraction root; the root itself is [].
  type Path = seq<string>

  datatype Tree = Tree(files: map<Path, seq<byte>>, dirs: set<Path>)

  const EMPTY_TREE := Tree(map[], {})

  predicate ProperPrefix(p: Path, q: Path) {
    |p| < |q| && q[..|p|] == p
  }

  function Parents(p: Path): set<Path> {
    set i | 1 <= i < |p| :: p[..i]
  }

  /** What the visitor of `extract_planned_tree` does for one entry: `create_dir_all` of the parent, which fails on a
      file, then `create_new` of the target, which fails on anything that exists. */
  function WriteEntry(t: Tree, e: Entry): Option<Tree> {
    var target := Split(e.name);
    var dirs := t.dirs + Parents(target);
    if (exists p | p in Parents(target) :: p in t.files) || target in t.files || target in dirs then None
    else Some(Tree(t.files[target := e.content], dirs))
  }

  /** No entry's path is a proper component prefix of another's. */
  ghost predicate PrefixFree(es: seq<Entry>) {
    forall e, f | e in es && f in es :: !ProperPrefix(Split(e.name), Split(f.name))
  }

  ghost predicate HasFile(es: seq<Entry>, p: Path, content: seq<byte>) {
    exists e :: e in es && Split(e.name) == p && e.content == content
  }

  ghost predicate HasDir(es: seq<Entry>, p: Path) {
    p != [] && exists e :: e in es && ProperPrefix(p, Split(e.name))
  }

  /** The tree holds exactly the files of `es`, and as directories exactly their parents. */
  ghost predicate IsTreeOf(t: Tree, es: seq<Entry>) {
    && (forall e | e in es :: Split(e.name) in t.files && t.files[Split(e.name)] == e.content)
    && (forall p | p in t.files :: HasFile(es, p, t.files[p]))
    && (forall p :: p in t.dirs <==> HasDir(es, p))
  }

  lemma SplitInjective(a: string, b: string)
    requires Split(a) == Split(b)
    ensures a == b
  {
    Text.JoinSplit(a, '/');
    Text.JoinSplit(b, '/');
  }

  lemma ParentsAre(p: Path, q: Path)
    ensures q in Parents(p) <==> q != [] && ProperPrefix(q, p)
  {
    if q != [] && ProperPrefix(q, p) { assert q == p[..|q|]; }
  }

  predicate Clashes(done: seq<Entry>, e: Entry) {
    exists f | f in done :: ProperPrefix(Split(f.name), Split(e.name)) || ProperPrefix(Split(e.name), Split(f.name))
  }

  lemma WriteOneSucceeds(t: Tree, done: seq<Entry>, e: Entry)
    requires IsTreeOf(t, done) && forall f | f in done :: f.name != e.name
    ensures WriteEntry(t, e).Some? <==> !Clashes(done, e)
  {
    var target := Split(e.name);
    forall f | f in done
      ensures Split(f.name) != target
    {
      if Split(f.name) == target { SplitInjective(f.name, e.name); }
    }
    ParentsAre(target, target);
    if Clashes(done, e) {
      var f :| f in done && (ProperPrefix(Split(f.name), target) || ProperPrefix(target, Split(f.name)));
      ParentsAre(target, Split(f.name));
      assert ProperPrefix(target, Split(f.name)) ==> HasDir(done, target);
    }
    if p :| p in Parents(target) && p in t.files {
      ParentsAre(target, p);
      assert HasFile(done, p, t.files[p]);
    }
    if target in t.dirs { assert HasDir(done, target); }
  }

  lemma WriteOneWrites(t: Tree, done: seq<Entry>, e: Entry)
    requires IsTreeOf(t, done) && WriteEntry(t, e).Some?
    ensures IsTreeOf(WriteEntry(t, e).value, done + [e])
  {
    var t', all, target := WriteEntry(t, e).value, done + [e], Split(e.name);
    assert e in all;
    forall p | p in t'.files
      ensures HasFile(all, p, t'.files[p])
    {
      if p != target {
        var f :| f in done && Split(f.name) == p && f.content == t.files[p];
        assert f in all;
      }
    }
    forall p
      ensures p in t'.dirs <==> HasDir(all, p)
    {
      ParentsAre(target, p);
      if HasDir(done, p) {
        var f :| f in done && ProperPrefix(p, Split(f.name));
        assert f in all;
      }
    }
  }

  lemma ClashesDecide(done: seq<Entry>, e: Entry)
    requires PrefixFree(done)
    ensures PrefixFree(done + [e]) <==> !Clashes(done, e)
  {
    var all := done + [e];
    assert e in all && forall f | f in done :: f in all;
    assert !ProperPrefix(Split(e.name), Split(e.name));
  }

  lemma ClashStays(done: seq<Entry>, all: seq<Entry>)
    requires !PrefixFree(done) && forall f | f in done :: f in all
    ensures !PrefixFree(all)
  {
    hide Split;
  }

  lemma NameIsNew(done: seq<Entry>, e: Entry, rest: seq<Entry>)
    requires DistinctNames(done + [e] + rest)
    ensures forall f | f in done :: f.name != e.name
  {
    var all := done + [e] + rest;
    forall f | f in done
      ensures f.name != e.name
    {
      var i :| 0 <= i < |done| && done[i] == f;
      assert all[i] == f && all[|done|] == e;
    }
  }

  lemma VisitFirst(t: Tree, rest: seq<Entry>)
    requires rest != []
    ensures VisitAll(WriteEntry, t, rest) ==
            match WriteEntry(t, rest[0]) case None => None case Some(next) => VisitAll(WriteEntry, next, rest[1..])
  {
  }

  lemma {:induction false} ExtractFrom(t: Tree, done: seq<Entry>, rest: seq<Entry>)
    requires IsTreeOf(t, done) && PrefixFree(done) && DistinctNames(done + rest)
    ensures VisitAll(WriteEntry, t, rest).Some? <==> PrefixFree(done + rest)
    ensures VisitAll(WriteEntry, t, rest).Some? ==> IsTreeOf(VisitAll(WriteEntry, t, rest).value, done + rest)
    decreases |rest|
  {
    if rest == [] {
      assert done + rest == done;
    } else {
      hide IsTreeOf, WriteEntry, PrefixFree, Clashes, DistinctNames, VisitAll;
      var e := rest[0];
      assert done + [e] + rest[1..] == done + rest;
      NameIsNew(done, e, rest[1..]);
      WriteOneSucceeds(t, done, e);
      ClashesDecide(done, e);
      VisitFirst(t, rest);
      if WriteEntry(t, e).Some? {
        WriteOneWrites(t, done, e);
        ExtractFrom(WriteEntry(t, e).value, done + [e], rest[1..]);
      } else {
        assert forall f | f in done + [e] :: f in done + [e] + rest[1..];
        ClashStays(done + [e], done + rest);
      }
    }
  }

  /** Extracting an accepted archive into an empty directory succeeds exactly when no entry's path is a proper
      component prefix of another's, and then the directory holds exactly the archive's files. */
  lemma ExtractsIffPrefixFree(bytes: seq<byte>)
    requires Parse(bytes).Some?
    ensures var es := Parse(bytes).value; var t := VisitAll(WriteEntry, EMPTY_TREE, es);
      (t.Some? <==> PrefixFree(es)) && (t.Some? ==> IsTreeOf(t.value, es))
  {
    var es := Parse(bytes).value;
    ParseIsInverse(bytes, es);
    CanonicalIsDistinct(es);
    assert [] + es == es;
    ExtractFrom(EMPTY_TREE, [], es);
  }

  lemma CanonicalIsDistinct(es: seq<Entry>)
    requires Canonical(es)
    ensures DistinctNames(es)
  {
    forall i, j | 0 <= i < j < |es|
      ensures es[i].name != es[j].name
    {
      LexIrreflexive(Utf8.Encode(es[i].name));
    }
  }

  // ----- walking the directory -----

  /** Every entry of the tree lies in directories of the tree. */
  ghost predicate Rooted(t: Tree) {
    forall p, i | (p in t.files || p in t.dirs) && 1 <= i < |p| :: p[..i] in t.dirs && p[..i] !in t.files
  }

  predicate Under(at: Path, p: Path) {
    |at| <= |p| && p[..|at|] == at
  }

  function Children(t: Tree, at: Path): set<Path> {
    set p | p in t.files.Keys + t.dirs && |p| == |at| + 1 && Under(at, p)
  }

  // The relative name that the walk records: components joined, and every backslash replaced.
  function Relative(p: Path): string {
    var name := Join(p);
    seq(|name|, i requires 0 <= i < |name| => if name[i] == '\\' then '/' else name[i])
  }

  predicate SafeName(p: Path) {
    forall part | part in Split(Relative(p)) :: SafeComponent(part)
  }

  // Is a file below `at` that no skipped `.git` directory hides?
  ghost predicate Listed(t: Tree, at: Path, skipGit: bool, p: Path) {
    p in t.files && Under(at, p) && (skipGit ==> forall i | 0 <= i < |p| - 1 && |at| <= i + 1 :: p[i] != ".git")
  }

  lemma ListedBelow(t: Tree, at: Path, skipGit: bool, p: Path)
    requires Rooted(t) && at !in t.files && p in t.files && !(skipGit && at != [] && at[|at| - 1] == ".git")
    ensures Listed(t, at, skipGit, p) <==>
      |p| > |at| && p[..|at| + 1] in Children(t, at) && Listed(t, p[..|at| + 1], skipGit, p)
  {
    if |p| > |at| {
      var child := p[..|at| + 1];
      assert child[..|at|] == p[..|at|];
      if |p| > |at| + 1 { assert child in t.dirs; } else { assert child == p; }
      assert at != [] && Under(at, p) ==> p[|at| - 1] == at[|at| - 1];
    } else {
      assert Under(at, p) ==> p == at;
    }
  }

  // The test of a file's name in `collect_tree_files`.
  method HasSafeName(at: Path) returns (ok: bool)
    ensures ok <==> SafeName(at)
  {
    ok := ComponentsAreSafe(Text.SplitOn(Relative(at), '/'));
  }

  /** `collect_tree_files` below `at`, listing every directory in an arbitrary order: it succeeds exactly when every
      listed file has safe name components, and then it returns each listed file once. */
  method CollectTreeFiles(t: Tree, at: Path, skipGit: bool, ghost depth: nat) returns (ok: bool, out: seq<Path>)
    requires Rooted(t) && [] !in t.files && (at == [] || at in t.files || at in t.dirs)
    requires forall p | p in t.files || p in t.dirs :: |p| <= depth
    ensures ok <==> forall p | Listed(t, at, skipGit, p) :: SafeName(p)
    ensures ok ==> NoRepeats(out) && forall p :: p in out <==> Listed(t, at, skipGit, p)
    decreases depth - |at|
  {
    hide SafeName;
    out := [];
    if at in t.files {
      FileListsItself(t, at, skipGit);
      ok := HasSafeName(at);
      return ok, [at];
    }
    if skipGit && at != [] && at[|at| - 1] == ".git" {
      SkippedListsNothing(t, at);
      return true, [];
    }
    var todo := Children(t, at);
    ghost var children := todo;
    forall p | p in t.files { ListedBelow(t, at, skipGit, p); }
    while todo != {}
      invariant todo <= children && NoRepeats(out)
      invariant forall p :: p in out <==> Listed(t, at, skipGit, p) && p[..|at| + 1] in children - todo
      invariant forall p | p in out :: SafeName(p)
      decreases |todo|
    {
      var child :| child in todo;
      var below;
      ok, below := CollectTreeFiles(t, child, skipGit, depth);
      if !ok { return false, []; }
      AppendsWithoutRepeats(out, below, |at| + 1, child);
      out := out + below;
      todo := todo - {child};
    }
    ok := true;
  }

  lemma SkippedListsNothing(t: Tree, at: Path)
    requires at != [] && at !in t.files && at[|at| - 1] == ".git"
    ensures forall p :: !Listed(t, at, true, p)
  {
    forall p | p in t.files && Under(at, p)
      ensures !Listed(t, at, true, p)
    {
      assert p == p[..|p|];
      assert p[..|at|][|at| - 1] == p[|at| - 1];
    }
  }

  lemma FileListsItself(t: Tree, at: Path, skipGit: bool)
    requires Rooted(t) && at in t.files && at != []
    ensures forall p :: Listed(t, at, skipGit, p) <==> p == at
  {
    forall p | Listed(t, at, skipGit, p)
      ensures p == at
    {
      assert p[..|at|] == at;
      assert |p| == |at|;
    }
  }

  lemma AppendsWithoutRepeats(out: seq<Path>, below: seq<Path>, n: nat, child: Path)
    requires NoRepeats(out) && NoRepeats(below)
    requires forall p | p in out :: |p| >= n && p[..n] != child
    requires forall p | p in below :: |p| >= n && p[..n] == child
    ensures NoRepeats(out + below)
  {
    var all := out + below;
    forall i, j | 0 <= i < j < |all|
      ensures all[i] != all[j]
    {
      if i < |out| <= j { assert all[i] in out && all[j] in below; }
    }
  }

  // ----- hashing it again -----

  function EntriesAt(t: Tree, paths: seq<Path>): seq<Entry>
    requires forall p | p in paths :: p in t.files
  {
    seq(|paths|, i requires 0 <= i < |paths| => Entry(Relative(paths[i]), t.files[paths[i]]))
  }

  lemma NamesAreRelative(e: Entry)
    requires ValidName(e.name)
    ensures Relative(Split(e.name)) == e.name && SafeName(Split(e.name))
  {
    Text.JoinSplit(e.name, '/');
    assert forall i | 0 <= i < |e.name| :: e.name[i] in e.name;
    assert Relative(Split(e.name)) == e.name;
  }

  lemma TreeOfIsSafe(t: Tree, es: seq<Entry>, p: Path)
    requires Canonical(es) && IsTreeOf(t, es) && p in t.files
    ensures SafeName(p) && Entry(Relative(p), t.files[p]) in es && p == Split(Relative(p))
  {
    var e :| e in es && Split(e.name) == p && e.content == t.files[p];
    NamesAreRelative(e);
    assert e == Entry(Relative(p), t.files[p]);
  }

  lemma DistinctHasNoCopies(es: seq<Entry>, e: Entry)
    requires DistinctNames(es)
    ensures multiset(es)[e] == if e in es then 1 else 0
  {
    if multiset(es)[e] >= 2 { var i, j := OccursTwice(es, e); }
  }

  lemma SameEntriesSameMultiset(a: seq<Entry>, b: seq<Entry>)
    requires DistinctNames(a) && DistinctNames(b) && forall e :: e in a <==> e in b
    ensures multiset(a) == multiset(b)
  {
    forall e
      ensures multiset(a)[e] == multiset(b)[e]
    {
      DistinctHasNoCopies(a, e);
      DistinctHasNoCopies(b, e);
    }
  }

  /** The walk of an extracted tree, sorted, is the archive's list of entries. */
  lemma WalkFindsEntries(t: Tree, es: seq<Entry>, paths: seq<Path>)
    requires Canonical(es) && IsTreeOf(t, es) && NoRepeats(paths) && forall p :: p in paths <==> p in t.files
    ensures Sort(EntriesAt(t, paths)) == es
  {
    var found := EntriesAt(t, paths);
    forall i | 0 <= i < |paths|
      ensures found[i] in es && paths[i] == Split(found[i].name)
    {
      assert paths[i] in paths;
      TreeOfIsSafe(t, es, paths[i]);
    }
    forall e | e in es
      ensures e in found
    {
      var i :| 0 <= i < |paths| && paths[i] == Split(e.name);
      SplitInjective(found[i].name, e.name);
      assert found[i] == e;
    }
    SortedWalk(found, es);
  }

  lemma SortedWalk(found: seq<Entry>, es: seq<Entry>)
    requires Canonical(es) && DistinctNames(found) && forall e :: e in found <==> e in es
    ensures Sort(found) == es
  {
    CanonicalIsDistinct(es);
    SameEntriesSameMultiset(found, es);
    SortSorts(found);
    PermutationKeepsDistinct(found, Sort(found));
    assert forall e | e in Sort(found) :: e in multiset(es);
    OrderedIsCanonical(Sort(found));
    CanonicalIsUnique(Sort(found), es);
  }

  // The hashing loop over the sorted files. The total is a u64 sum without an overflow check.
  method HashFiles(hash: Hash, files: seq<Entry>) returns (r: TreeIdentity)
    ensures r == TreeIdentity(hash(Frames(files)), |files|, TotalBytes(files) % 0x1_0000_0000_0000_0000)
  {
    hide Frame;
    var absorbed: seq<byte> := [];
    var total: u64 := 0;
    for i := 0 to |files|
      invariant absorbed == Frames(files[..i]) && total == TotalBytes(files[..i]) % 0x1_0000_0000_0000_0000
    {
      assert files[..i + 1] == files[..i] + [files[i]];
      FramesAppend(files[..i], files[i]);
      absorbed := absorbed + Frame(files[i]);
      total := (total + |files[i].content|) % 0x1_0000_0000_0000_0000;
    }
    assert files[..|files|] == files;
    return TreeIdentity(hash(absorbed), |files|, total);
  }

  // `t` is an extracted archive with these entries.
  ghost predicate IsArchiveTree(t: Tree, es: seq<Entry>) {
    Canonical(es) && IsTreeOf(t, es) && TotalBytes(es) <= U64_MAX
  }

  ghost predicate IsListing(t: Tree, paths: seq<Path>) {
    NoRepeats(paths) && forall p :: p in paths <==> p in t.files
  }

  function IdentityAt(hash: Hash, t: Tree, paths: seq<Path>): TreeIdentity
    requires forall p | p in paths :: p in t.files
  {
    var files := Sort(EntriesAt(t, paths));
    TreeIdentity(hash(Frames(files)), |files|, TotalBytes(files) % 0x1_0000_0000_0000_0000)
  }

  /** The identity of all files of the tree, listed in some order and sorted. */
  ghost predicate IsRehash(hash: Hash, t: Tree, r: TreeIdentity) {
    exists paths: seq<Path> | IsListing(t, paths) :: r == IdentityAt(hash, t, paths)
  }

  /** `hash_materialized_tree`, on any directory: it succeeds exactly if every file has safe name components, and
      returns the identity of the sorted files. */
  method HashMaterializedTree(hash: Hash, t: Tree, ghost depth: nat) returns (r: Option<TreeIdentity>)
    requires Rooted(t) && [] !in t.files && forall p | p in t.files || p in t.dirs :: |p| <= depth
    ensures r.Some? <==> forall p | p in t.files :: SafeName(p)
    ensures r.Some? ==> IsRehash(hash, t, r.value)
  {
    hide Rooted, SafeName, Sort, Listed, EntriesAt, TotalBytes, Frames;
    var ok, paths := CollectTreeFiles(t, [], false, depth);
    RootListsAll(t);
    if !ok { return None; }
    AllPathsAreFiles(t, paths);
    var identity := HashFiles(hash, Sort(EntriesAt(t, paths)));
    assert IsListing(t, paths) && identity == IdentityAt(hash, t, paths);
    return Some(identity);
  }

  /** Whatever the listing order, an extracted archive re-hashes to its own identity: the digest, the file count and the
      byte total that the parser returned. */
  lemma RehashOfArchive(hash: Hash, t: Tree, es: seq<Entry>)
    requires IsArchiveTree(t, es)
    ensures forall p | p in t.files :: SafeName(p)
    ensures forall r | IsRehash(hash, t, r) :: r == IdentityOf(hash, es)
  {
    hide Canonical, IsTreeOf, SafeName, Sort, EntriesAt, TotalBytes, Frames;
    TreeOfAllSafe(t, es);
    forall r | IsRehash(hash, t, r)
      ensures r == IdentityOf(hash, es)
    {
      var paths: seq<Path> :| IsListing(t, paths) && r == IdentityAt(hash, t, paths);
      WalkFindsEntries(t, es, paths);
    }
  }

  lemma RootListsAll(t: Tree)
    ensures forall p :: Listed(t, [], false, p) <==> p in t.files
  {
  }

  lemma AllPathsAreFiles(t: Tree, paths: seq<Path>)
    requires forall p :: p in paths <==> Listed(t, [], false, p)
    ensures forall p :: p in paths <==> p in t.files
  {
  }

  lemma TreeOfAllSafe(t: Tree, es: seq<Entry>)
    requires Canonical(es) && IsTreeOf(t, es)
    ensures forall p | p in t.files :: SafeName(p)
  {
    forall p | p in t.files
      ensures SafeName(p)
    {
      TreeOfIsSafe(t, es, p);
    }
  }

  // ----- materialize -----

  /** The tree of an extraction is rooted, has no file at its root and is as deep as its longest path. */
  lemma ExtractedIsRooted(t: Tree, es: seq<Entry>)
    requires IsTreeOf(t, es) && PrefixFree(es)
    ensures Rooted(t) && [] !in t.files
  {
    forall p, i | (p in t.files || p in t.dirs) && 1 <= i < |p|
      ensures p[..i] in t.dirs && p[..i] !in t.files
    {
      var e :| e in es && (Split(e.name) == p || ProperPrefix(p, Split(e.name)));
      hide Split;
      var q := Split(e.name);
      assert p[..i] == q[..i];
      assert ProperPrefix(p[..i], q);
      assert HasDir(es, p[..i]);
      assert forall content :: !HasFile(es, p[..i], content) by {
        assert forall f | f in es :: !ProperPrefix(Split(f.name), q);
      }
    }
    assert forall content :: !HasFile(es, [], content);
  }

  ghost function DepthBound(t: Tree): (d: nat)
    ensures forall p | p in t.files || p in t.dirs :: |p| <= d
  {
    MaxLength(t.files.Keys + t.dirs)
  }

  ghost function MaxLength(paths: set<Path>): (d: nat)
    ensures forall p | p in paths :: |p| <= d
  {
    if paths == {} then 0
    else
      var p :| p in paths;
      var rest := MaxLength(paths - {p});
      assert forall q | q in paths :: q == p || q in paths - {p};
      if |p| > rest then |p| else rest
  }

  // The bytes are an archive with the planned identity and no path is a component prefix of another.
  ghost predicate Extractable(hash: Hash, archive: seq<byte>, planned: TreeIdentity) {
    Parse(archive).Some? && IdentityOf(hash, Parse(archive).value) == planned && PrefixFree(Parse(archive).value)
  }

  class Executions {
    var roots: map<string, Tree>

    constructor ()
      ensures roots == map[]
    {
      roots := map[];
    }

    /** `materialize`, from the stored archive bytes on. On success the plan's new root holds exactly the files of an
        archive with the planned identity. On failure no root of its own is left, except by a failing removal, and a
        root that was there before is untouched. It succeeds exactly when no call fails (`failed` says whether one did),
        there was no root and the archive is extractable. */
    method Materialize(hash: Hash, plan: string, archive: seq<byte>, planned: TreeIdentity, faults: bool)
      returns (ok: bool, ghost failed: bool)
      requires |archive| < 0x1_0000_0000_0000_0000
      modifies this
      ensures ok ==> plan !in old(roots) && plan in roots && roots - {plan} == old(roots) - {plan}
      ensures ok ==> Parse(archive).Some? && IdentityOf(hash, Parse(archive).value) == planned &&
                     IsTreeOf(roots[plan], Parse(archive).value)
      ensures ok ==> forall p | p in roots[plan].files :: p != [] && PathResolution.Resolve([], p) == Some(p)
      ensures !ok ==> roots == old(roots) || (faults && plan !in old(roots) && roots - {plan} == old(roots))
      ensures failed ==> faults
      ensures ok <==> !failed && plan !in old(roots) && Extractable(hash, archive, planned)
    {
      hide Parse, Canonical, IsTreeOf, PrefixFree, Rooted, VisitAll, IsArchiveTree, IdentityOf, DepthBound, IsRehash,
        SafeName;
      if plan in roots { return false, false; }
      var fault: bool := *;
      failed := fault && faults;
      if fault && faults { return false, failed; }
      roots := roots[plan := EMPTY_TREE];
      var identity, tree := ParseTreeArchive(hash, archive, WriteEntry, EMPTY_TREE);
      if Parse(archive).Some? { ExtractsIffPrefixFree(archive); }
      roots := roots[plan := tree];
      fault := *;
      failed := failed || (fault && faults);
      if identity.None? || identity.value != planned || (fault && faults) {
        Discard(plan, faults);
        return false, failed;
      }
      ghost var es := Parse(archive).value;
      ExtractedRehashes(hash, archive, tree, es);
      FilesAreAtTheirPlaces(archive, tree, es);
      var rehashed := HashMaterializedTree(hash, tree, DepthBound(tree));
      assert rehashed == Some(IdentityOf(hash, es));
      fault := *;
      failed := failed || (fault && faults);
      if (fault && faults) || rehashed != Some(planned) {
        Discard(plan, faults);
        return false, failed;
      }
      return true, failed;
    }

    // `let _ = remove_dir_all(destination)`
    method Discard(plan: string, faults: bool)
      modifies this
      ensures roots == old(roots) - {plan} || (faults && roots == old(roots))
    {
      var fault: bool := *;
      if !(fault && faults) { roots := roots - {plan}; }
    }
  }

  // What the re-hash of a just extracted archive relies on, and what it gives.
  lemma ExtractedRehashes(hash: Hash, archive: seq<byte>, tree: Tree, es: seq<Entry>)
    requires |archive| < 0x1_0000_0000_0000_0000 && Parse(archive) == Some(es) && IsTreeOf(tree, es) && PrefixFree(es)
    ensures Rooted(tree) && [] !in tree.files && forall p | p in tree.files :: SafeName(p)
    ensures forall r | IsRehash(hash, tree, r) :: r == IdentityOf(hash, es)
  {
    hide Parse, Canonical, IsTreeOf, PrefixFree, Rooted, IsArchiveTree, IdentityOf, IsRehash, SafeName;
    ParsedFits(archive, es);
    ExtractedIsRooted(tree, es);
    ArchiveTreeFacts(tree, es);
    RehashOfArchive(hash, tree, es);
  }

  // Every extracted file lies where its name leads from the root.
  lemma FilesAreAtTheirPlaces(archive: seq<byte>, tree: Tree, es: seq<Entry>)
    requires Parse(archive) == Some(es) && IsTreeOf(tree, es)
    ensures forall p | p in tree.files :: p != [] && PathResolution.Resolve([], p) == Some(p)
  {
    ParseIsInverse(archive, es);
    hide Split, ValidName, Parse, PathResolution.Resolve;
    forall p | p in tree.files
      ensures p != [] && PathResolution.Resolve([], p) == Some(p)
    {
      var e :| e in es && Split(e.name) == p && e.content == tree.files[p];
      PathResolution.EntryIsAtItsPlace(e);
    }
  }

  lemma ArchiveTreeFacts(t: Tree, es: seq<Entry>)
    requires Canonical(es) && IsTreeOf(t, es) && TotalBytes(es) <= U64_MAX
    ensures IsArchiveTree(t, es)
  {
  }

  lemma ParsedFits(bytes: seq<byte>, es: seq<Entry>)
    requires |bytes| < 0x1_0000_0000_0000_0000 && Parse(bytes) == Some(es)
    ensures Canonical(es) && TotalBytes(es) <= U64_MAX
  {
    ParseIsInverse(bytes, es);
    TotalFitsFrames(es);
  }

  lemma {:induction false} TotalFitsFrames(es: seq<Entry>)
    ensures TotalBytes(es) <= |Frames(es)|
  {
    if es != [] { TotalFitsFrames(es[1..]); }
  }
}
