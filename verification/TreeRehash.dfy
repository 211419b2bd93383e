/** What the second hash of an execution tree proves about a directory that may have changed: `verify_materialized`. */
module TreeRehash {
  import opened Wrappers
  import opened Bytes
  import opened Lists
  import opened TreeArchive
  import opened TreeArchiveCode
  import opened TreeMaterialisation
  import Text
  import Utf8

  // What a file system guarantees of paths and sizes: components are not empty and hold no separator.
  predicate IsPath(p: Path) {
    p != [] && forall part | part in p :: part != [] && '/' !in part
  }

  ghost predicate OnDisk(t: Tree) {
    forall p | p in t.files :: IsPath(p) && Framable(Entry(Relative(p), t.files[p]))
  }

  predicate HasBackslash(p: Path) {
    exists part | part in p :: '\\' in part
  }

  /** The files of the tree are those of the list, at their own paths. */
  ghost predicate HoldsFiles(t: Tree, es: seq<Entry>) {
    && (forall e | e in es :: Split(e.name) in t.files && t.files[Split(e.name)] == e.content)
    && (forall p | p in t.files :: HasFile(es, p, t.files[p]))
  }

  ghost predicate Recorded(t: Tree, e: Entry) {
    exists p :: p in t.files && Relative(p) == e.name && t.files[p] == e.content
  }

  /** The files of the tree are those of the list under the names that the walk records, one file for each. */
  ghost predicate RecordsFiles(t: Tree, es: seq<Entry>) {
    && |t.files| == |es|
    && (forall p | p in t.files :: Entry(Relative(p), t.files[p]) in es)
    && (forall e | e in es :: Recorded(t, e))
    && (forall p, q | p in t.files && q in t.files && Relative(p) == Relative(q) :: p == q)
  }

  ghost predicate NoSecondPreimage(hash: Hash, bytes: seq<byte>) {
    forall x: seq<byte> :: hash(x) == hash(bytes) ==> x == bytes
  }

  // ----- names and backslashes -----

  lemma {:induction false} JoinChars(p: Path, c: char)
    requires c != '/'
    ensures c in Join(p) <==> exists part | part in p :: c in part
  {
    if |p| == 1 {
      assert p[0] in p;
    } else if p != [] {
      JoinChars(p[1..], c);
      assert forall part :: part in p <==> part == p[0] || part in p[1..];
      assert Join(p) == p[0] + ['/'] + Join(p[1..]);
    }
  }

  /** The recorded name of a path splits back into the path exactly if no component holds a backslash. */
  lemma SplitRelative(p: Path)
    requires IsPath(p)
    ensures Split(Relative(p)) == p <==> !HasBackslash(p)
  {
    var name := Join(p);
    JoinChars(p, '\\');
    Text.SplitJoin(p, '/');
    if HasBackslash(p) {
      Text.JoinSplit(Relative(p), '/');
      assert '\\' !in Relative(p);
    } else {
      assert forall i | 0 <= i < |name| :: name[i] in name;
      assert Relative(p) == name;
    }
  }

  // ----- what the digest pins -----

  lemma PinnedList(hash: Hash, t: Tree, planned: seq<Entry>, paths: seq<Path>)
    requires OnDisk(t) && IsListing(t, paths) && IdentityAt(hash, t, paths).sha256 == hash(Frames(planned))
    requires Canonical(planned)
    requires NoSecondPreimage(hash, Frames(planned))
    ensures multiset(EntriesAt(t, paths)) == multiset(planned)
  {
    hide Frames, Sort, Frame, Utf8.Encode, Relative;
    var found := EntriesAt(t, paths);
    SortSorts(found);
    forall e | e in Sort(found)
      ensures Framable(e)
    {
      assert e in multiset(found);
      var i :| 0 <= i < |found| && found[i] == e;
      assert paths[i] in paths;
    }
    assert Frames(Sort(found)) == Frames(planned);
    FramesInjective(Sort(found), planned);
  }

  lemma ListingSize(t: Tree, paths: seq<Path>)
    requires IsListing(t, paths)
    ensures |paths| == |t.files|
  {
    assert t.files.Keys == set p | p in paths;
    NoRepeatsCounts(paths);
    assert |t.files.Keys| == |t.files|;
  }

  lemma {:induction false} NoRepeatsCounts<T>(s: seq<T>)
    requires NoRepeats(s)
    ensures |set x | x in s| == |s|
  {
    if s != [] {
      NoRepeatsCounts(s[1..]);
      assert (set x | x in s) == {s[0]} + set x | x in s[1..];
      assert forall i | 0 <= i < |s[1..]| :: s[1..][i] == s[i + 1];
      assert s[0] !in s[1..];
    }
  }

  /** A directory whose re-hash is the planned identity holds the planned files under the names that the walk records,
      one file for each, unless the planned digest has a second preimage. Directories without files are invisible. */
  lemma RehashPinsTheFiles(hash: Hash, t: Tree, planned: seq<Entry>)
    requires OnDisk(t) && Canonical(planned) && IsRehash(hash, t, IdentityOf(hash, planned))
    requires NoSecondPreimage(hash, Frames(planned))
    ensures RecordsFiles(t, planned)
  {
    hide Canonical, OnDisk, Sort, Frames, TotalBytes, Relative;
    var paths: seq<Path> :| IsListing(t, paths) && IdentityOf(hash, planned) == IdentityAt(hash, t, paths);
    PinnedList(hash, t, planned, paths);
    ListingSize(t, paths);
    var found := EntriesAt(t, paths);
    assert |multiset(found)| == |found| && |multiset(planned)| == |planned|;
    CanonicalIsDistinct(planned);
    PermutationKeepsDistinct(planned, found);
    FoundIsRecorded(t, planned, paths);
  }

  lemma FoundIsRecorded(t: Tree, planned: seq<Entry>, paths: seq<Path>)
    requires IsListing(t, paths) && DistinctNames(EntriesAt(t, paths)) && |t.files| == |planned|
    requires multiset(EntriesAt(t, paths)) == multiset(planned)
    ensures RecordsFiles(t, planned)
  {
    hide Relative, Recorded;
    var found := EntriesAt(t, paths);
    forall p | p in t.files
      ensures Entry(Relative(p), t.files[p]) in planned
    {
      var i :| 0 <= i < |paths| && paths[i] == p;
      assert found[i] in multiset(found) && found[i] in multiset(planned);
    }
    forall e | e in planned
      ensures Recorded(t, e)
    {
      assert e in multiset(planned) && e in multiset(found);
      FoundAt(t, paths, e);
    }
    forall p, q | p in t.files && q in t.files && Relative(p) == Relative(q)
      ensures p == q
    {
      OneFileForName(t, paths, p, q);
    }
  }

  lemma FoundAt(t: Tree, paths: seq<Path>, e: Entry)
    requires IsListing(t, paths) && e in EntriesAt(t, paths)
    ensures Recorded(t, e)
  {
    hide Relative;
    var i :| 0 <= i < |paths| && EntriesAt(t, paths)[i] == e;
    assert paths[i] in paths;
  }

  lemma OneFileForName(t: Tree, paths: seq<Path>, p: Path, q: Path)
    requires IsListing(t, paths) && DistinctNames(EntriesAt(t, paths))
    requires p in t.files && q in t.files && Relative(p) == Relative(q)
    ensures p == q
  {
    hide Relative;
    var i :| 0 <= i < |paths| && paths[i] == p;
    var j :| 0 <= j < |paths| && paths[j] == q;
    assert EntriesAt(t, paths)[i].name == EntriesAt(t, paths)[j].name;
  }

  lemma {:induction false} SetListing<T>(s: set<T>) returns (l: seq<T>)
    ensures NoRepeats(l) && forall x :: x in l <==> x in s
  {
    if s == {} {
      l := [];
    } else {
      var x :| x in s;
      var rest := SetListing(s - {x});
      l := [x] + rest;
    }
  }

  // A tree that records the files is found, entry by entry, in any listing.
  lemma RecordedIsFound(t: Tree, planned: seq<Entry>, paths: seq<Path>)
    requires RecordsFiles(t, planned) && IsListing(t, paths)
    ensures DistinctNames(EntriesAt(t, paths)) && forall e :: e in EntriesAt(t, paths) <==> e in planned
  {
    hide Relative;
    var found := EntriesAt(t, paths);
    assert forall i | 0 <= i < |paths| :: paths[i] in paths;
    forall i, j | 0 <= i < j < |found|
      ensures found[i].name != found[j].name
    {
      assert paths[i] in t.files && paths[j] in t.files && paths[i] != paths[j];
    }
    forall e | e in planned
      ensures e in found
    {
      assert Recorded(t, e);
      var p :| p in t.files && Relative(p) == e.name && t.files[p] == e.content;
      var i :| 0 <= i < |paths| && paths[i] == p;
      assert found[i] == e;
    }
  }

  lemma RecordedIsSafe(t: Tree, planned: seq<Entry>)
    requires Canonical(planned) && RecordsFiles(t, planned)
    ensures forall p | p in t.files :: SafeName(p)
  {
    hide Relative, Split, Utf8.Encode, Recorded, NameLess;
    forall p | p in t.files
      ensures SafeName(p)
    {
      assert ValidName(Entry(Relative(p), t.files[p]).name);
    }
  }

  lemma ListingRehashes(hash: Hash, t: Tree, planned: seq<Entry>, paths: seq<Path>)
    requires Canonical(planned) && TotalBytes(planned) <= U64_MAX && RecordsFiles(t, planned) && IsListing(t, paths)
    ensures IdentityAt(hash, t, paths) == IdentityOf(hash, planned)
  {
    hide Canonical, EntriesAt, Sort, Frames, TotalBytes, RecordsFiles;
    RecordedIsFound(t, planned, paths);
    SortedWalk(EntriesAt(t, paths), planned);
  }

  /** A directory that records the planned files has safe names alone, and re-hashes to the planned identity in any
      listing order. */
  lemma RecordedRehashes(hash: Hash, t: Tree, planned: seq<Entry>)
    requires Canonical(planned) && TotalBytes(planned) <= U64_MAX && RecordsFiles(t, planned)
    ensures forall p | p in t.files :: SafeName(p)
    ensures forall r | IsRehash(hash, t, r) :: r == IdentityOf(hash, planned)
    ensures IsRehash(hash, t, IdentityOf(hash, planned))
  {
    RecordedIsSafe(t, planned);
    hide Canonical, EntriesAt, Sort, Frames, TotalBytes, RecordsFiles, SafeName, IdentityAt;
    forall r | IsRehash(hash, t, r)
      ensures r == IdentityOf(hash, planned)
    {
      var paths: seq<Path> :| IsListing(t, paths) && r == IdentityAt(hash, t, paths);
      ListingRehashes(hash, t, planned, paths);
    }
    var some := SetListing(t.files.Keys);
    ListingRehashes(hash, t, planned, some);
    hide IdentityOf;
    assert IsListing(t, some) && IdentityAt(hash, t, some) == IdentityOf(hash, planned);
  }

  /** The re-hash of a directory is the planned identity if and only if it records the planned files, unless the planned
      digest has a second preimage. */
  lemma RehashIffRecorded(hash: Hash, t: Tree, planned: seq<Entry>)
    requires OnDisk(t) && Canonical(planned) && TotalBytes(planned) <= U64_MAX
    requires NoSecondPreimage(hash, Frames(planned))
    ensures IsRehash(hash, t, IdentityOf(hash, planned)) <==> RecordsFiles(t, planned)
  {
    hide OnDisk, Canonical, Frames, TotalBytes, RecordsFiles, NoSecondPreimage, IsRehash;
    if IsRehash(hash, t, IdentityOf(hash, planned)) { RehashPinsTheFiles(hash, t, planned); }
    if RecordsFiles(t, planned) { RecordedRehashes(hash, t, planned); }
  }

  /** `verify_materialized`, on any directory: it accepts whatever records the planned files, and nothing else
      unless the planned digest has a second preimage. A subject without a snapshot is refused. */
  method VerifyMaterialized(hash: Hash, t: Tree, snapshot: Option<TreeIdentity>, ghost planned: seq<Entry>,
                            ghost depth: nat)
    returns (ok: bool)
    requires Rooted(t) && [] !in t.files && forall p | p in t.files || p in t.dirs :: |p| <= depth
    requires OnDisk(t) && Canonical(planned) && TotalBytes(planned) <= U64_MAX
    requires snapshot.Some? ==> snapshot.value == IdentityOf(hash, planned)
    ensures snapshot.Some? && RecordsFiles(t, planned) ==> ok
    ensures ok ==> snapshot.Some?
    ensures ok && NoSecondPreimage(hash, Frames(planned)) ==> RecordsFiles(t, planned)
  {
    hide Rooted, OnDisk, Canonical, Frames, TotalBytes, RecordsFiles, NoSecondPreimage, SafeName, IsRehash;
    if snapshot.None? { return false; }
    var found := HashMaterializedTree(hash, t, depth);
    if RecordsFiles(t, planned) { RecordedRehashes(hash, t, planned); }
    if found.None? { return false; }
    ok := found.value == snapshot.value;
    if ok && NoSecondPreimage(hash, Frames(planned)) { RehashPinsTheFiles(hash, t, planned); }
  }

  lemma PlainHolds(t: Tree, planned: seq<Entry>)
    requires OnDisk(t) && RecordsFiles(t, planned) && forall p | p in t.files :: !HasBackslash(p)
    ensures HoldsFiles(t, planned)
  {
    hide Relative, HasBackslash, Framable, IsPath, Split, Recorded, HasFile;
    forall p | p in t.files
      ensures HasFile(planned, p, t.files[p])
    {
      SplitRelative(p);
      FileOf(planned, Entry(Relative(p), t.files[p]));
    }
    forall e | e in planned
      ensures Split(e.name) in t.files && t.files[Split(e.name)] == e.content
    {
      PlainIsHeld(t, e);
    }
  }

  /** Such a directory holds the planned files at their own paths exactly if no file path has a backslash in a
      component. */
  lemma RecordedIsHeldIff(t: Tree, planned: seq<Entry>)
    requires OnDisk(t) && Canonical(planned) && RecordsFiles(t, planned)
    ensures HoldsFiles(t, planned) <==> forall p | p in t.files :: !HasBackslash(p)
  {
    if HoldsFiles(t, planned) {
      hide HasBackslash, Framable, IsPath, Canonical, RecordsFiles, HasFile;
      forall p | p in t.files
        ensures !HasBackslash(p)
      {
        HeldHasNoBackslash(t, planned, p);
      }
    } else {
      hide HoldsFiles, OnDisk, RecordsFiles, HasBackslash;
      if forall p | p in t.files :: !HasBackslash(p) { PlainHolds(t, planned); }
    }
  }

  lemma FileOf(planned: seq<Entry>, e: Entry)
    requires e in planned
    ensures HasFile(planned, Split(e.name), e.content)
  {
  }

  lemma PlainIsHeld(t: Tree, e: Entry)
    requires Recorded(t, e) && forall p | p in t.files :: IsPath(p) && !HasBackslash(p)
    ensures Split(e.name) in t.files && t.files[Split(e.name)] == e.content
  {
    hide Relative, Split, HasBackslash, IsPath;
    var p :| p in t.files && Relative(p) == e.name && t.files[p] == e.content;
    SplitRelative(p);
  }

  lemma HeldHasNoBackslash(t: Tree, planned: seq<Entry>, p: Path)
    requires Canonical(planned) && p in t.files && IsPath(p) && HasFile(planned, p, t.files[p])
    ensures !HasBackslash(p)
  {
    hide Relative, Split, HasBackslash, IsPath, Canonical;
    var e :| e in planned && Split(e.name) == p && e.content == t.files[p];
    PlannedIsRelative(planned, e);
    SplitRelative(p);
  }

  lemma PlannedIsRelative(planned: seq<Entry>, e: Entry)
    requires Canonical(planned) && e in planned
    ensures Relative(Split(e.name)) == e.name
  {
    NamesAreRelative(e);
  }

  /** The failing input: with one file whose name holds a backslash the directory re-hashes to the identity of an
      archive whose file it does not hold, whatever the hash. */
  lemma BackslashGoesUnseen(hash: Hash, content: seq<byte>)
    requires |content| <= U64_MAX
    ensures var t, planned := Tree(map[["a\\b"] := content], {}), [Entry("a/b", content)];
      OnDisk(t) && Canonical(planned) && IsRehash(hash, t, IdentityOf(hash, planned)) && !HoldsFiles(t, planned)
  {
    var p: Path, t, planned := ["a\\b"], Tree(map[["a\\b"] := content], {}), [Entry("a/b", content)];
    assert Relative(p) == "a/b";
    AsciiName();
    assert planned[1..] == [] && TotalBytes(planned) == |content|;
    assert OnDisk(t) && Recorded(t, planned[0]) && RecordsFiles(t, planned);
    hide Relative, OnDisk, Canonical, IsRehash, HoldsFiles, RecordsFiles;
    RecordedRehashes(hash, t, planned);
    assert '\\' in p[0] && p[0] in p && HasBackslash(p) && p in t.files;
    RecordedIsHeldIff(t, planned);
  }

  lemma AsciiName()
    ensures ValidName("a/b") && |Utf8.Encode("a/b")| == 3
  {
    assert "a/b" == ['a'] + ['/'] + ['b'];
    Text.SplitAfterSep(['a'], '/', ['b']);
    Text.SplitSimple(['b'], '/');
    assert Split("a/b") == [['a'], ['b']];
    assert "a/b"[1..] == "/b" && "/b"[1..] == "b" && "b"[1..] == "";
  }

  /** Where no file name can hold a backslash, as on Windows, an unchanged re-hash means unchanged files. */
  lemma RehashMeansUnchanged(hash: Hash, t: Tree, planned: seq<Entry>)
    requires OnDisk(t) && Canonical(planned) && IsRehash(hash, t, IdentityOf(hash, planned))
    requires NoSecondPreimage(hash, Frames(planned))
    requires forall p | p in t.files :: !HasBackslash(p)
    ensures HoldsFiles(t, planned)
  {
    RehashPinsTheFiles(hash, t, planned);
    RecordedIsHeldIff(t, planned);
  }
}
