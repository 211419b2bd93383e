/** `prove_wheel_record_closure`, and what a closure is row by row: the two RECORD files list exactly the files of the
    wheel, each with its own length and hash text, apart from the files named RECORD. */
module WheelClosure {
  import opened Wrappers
  import opened Bytes
  import opened WheelRecord
  import Base64Url
  import Text

  // ----- the exemption -----

  /** The last component of a path. */
  function LastComponent(path: string): string {
    var parts := Text.SplitOn(path, '/'); parts[|parts| - 1]
  }

  lemma {:induction false} LastOfPlain(s: string)
    requires '/' !in s
    ensures LastComponent(s) == s
  {
    Text.SplitSimple(s, '/');
  }

  lemma {:induction false} LastAfterSlash(a: string, b: string)
    ensures LastComponent(a + ['/'] + b) == LastComponent(b)
  {
    var s := a + ['/'] + b;
    if a == [] {
      assert s[1..] == b;
    } else {
      assert s[1..] == a[1..] + ['/'] + b;
      LastAfterSlash(a[1..], b);
      var rest := Text.SplitOn(s[1..], '/');
      SlashSplits(s[1..], |a| - 1);
      assert |rest| > 1;
    }
  }

  lemma {:induction false} SlashSplits(s: string, k: nat)
    requires k < |s| && s[k] == '/'
    ensures |Text.SplitOn(s, '/')| > 1
  {
    if k > 0 { SlashSplits(s[1..], k - 1); }
  }

  lemma {:induction false} JoinedLast(parts: seq<string>) returns (a: string)
    requires |parts| > 1
    ensures Text.JoinWith(parts, '/') == a + ['/'] + parts[|parts| - 1]
  {
    assert parts[1..][|parts| - 2] == parts[|parts| - 1];
    if |parts| == 2 {
      a := parts[0];
    } else {
      var more := JoinedLast(parts[1..]);
      a := parts[0] + ['/'] + more;
    }
  }

  lemma AfterSlashIsLast(a: string)
    ensures EndsWith(a + ['/'] + "RECORD", "/RECORD") && LastComponent(a + ['/'] + "RECORD") == "RECORD"
  {
    hide LastComponent;
    var path := a + ['/'] + "RECORD";
    assert path[|path| - 7..] == ['/'] + "RECORD" == "/RECORD";
    LastAfterSlash(a, "RECORD");
    LastOfPlain("RECORD");
  }

  lemma LastIsWholeOrAfterSlash(path: string) returns (a: string)
    ensures path == LastComponent(path) || path == a + ['/'] + LastComponent(path)
  {
    var parts := Text.SplitOn(path, '/');
    Text.JoinSplit(path, '/');
    hide Text.SplitOn;
    a := [];
    if |parts| > 1 { a := JoinedLast(parts); }
  }

  /** The closure passes over a path exactly if its last component is RECORD. */
  lemma RecordPathIff(path: string)
    ensures IsRecordPath(path) <==> LastComponent(path) == "RECORD"
  {
    hide LastComponent;
    if EndsWith(path, "/RECORD") {
      var a := path[..|path| - 7];
      assert path == a + path[|path| - 7..] && "/RECORD" == ['/'] + "RECORD";
      assert path == a + ['/'] + "RECORD";
      AfterSlashIsLast(a);
    }
    if path == "RECORD" { LastOfPlain("RECORD"); }
    if LastComponent(path) == "RECORD" {
      var a := LastIsWholeOrAfterSlash(path);
      AfterSlashIsLast(a);
    }
  }

  // ----- closures row by row -----

  /** The row that a file of the wheel must have. */
  function RowOf(m: Member, hash: Hash): RecordEntry {
    RecordEntry(m.name, "sha256=" + Base64Url.Encode(hash(m.content)), |m.content|)
  }

  /** Apart from the files named RECORD, the rows are those of the files: each file has its row, and no row is of
      anything else. */
  ghost predicate ListsExactly(rows: seq<RecordEntry>, members: seq<Member>, hash: Hash) {
    && (forall m | m in members && LastComponent(m.name) != "RECORD" :: RowOf(m, hash) in rows)
    && (forall row | row in rows && LastComponent(row.path) != "RECORD" ::
          exists m :: m in members && row == RowOf(m, hash))
  }

  /** The wheel is an admitted archive with a RECORD file, both RECORD files are well formed and not empty, and both
      list exactly the files of the wheel. */
  ghost predicate IsClosure(pair: WheelPair, hash: Hash, absolute: Absolute) {
    && pair.wheel.Some? && ZipAdmitted(pair.wheel.value)
    && var members := MembersOf(pair.wheel.value);
       && RecordMember(members).Some?
       && var wheel, installed := RecordOf(RecordMember(members).value, absolute), RecordOf(pair.installed, absolute);
          && wheel.Some? && wheel.value != [] && ListsExactly(wheel.value, members, hash)
          && installed.Some? && installed.value != [] && ListsExactly(installed.value, members, hash)
  }

  lemma FoundIsRow(rows: seq<RecordEntry>, row: RecordEntry)
    requires FoldedDistinct(Paths(rows))
    ensures Find(rows, row.path) == Some((row.hash, row.size)) <==> row in rows
  {
    hide FoldedDistinct, Find;
    if row in rows {
      var k :| 0 <= k < |rows| && rows[k] == row;
      RowIsFound(rows, k);
    }
    if Find(rows, row.path) == Some((row.hash, row.size)) {
      FoundIff(rows, row.path);
      var other :| other in rows && other.path == row.path;
      var k :| 0 <= k < |rows| && rows[k] == other;
      RowIsFound(rows, k);
    }
  }

  // Two tables without repeated paths are one map exactly if they hold the same rows.
  lemma SameMapIffRows(a: seq<RecordEntry>, b: seq<RecordEntry>)
    requires FoldedDistinct(Paths(a)) && FoldedDistinct(Paths(b))
    ensures SameMap(a, b) <==>
            forall row: RecordEntry | LastComponent(row.path) != "RECORD" :: row in a <==> row in b
  {
    hide FoldedDistinct, Find, IsRecordPath, LastComponent;
    forall row: RecordEntry
      ensures Find(a, row.path) == Some((row.hash, row.size)) <==> row in a
      ensures Find(b, row.path) == Some((row.hash, row.size)) <==> row in b
      ensures IsRecordPath(row.path) <==> LastComponent(row.path) == "RECORD"
    {
      FoundIsRow(a, row);
      FoundIsRow(b, row);
      RecordPathIff(row.path);
    }
    if forall row: RecordEntry | LastComponent(row.path) != "RECORD" :: row in a <==> row in b {
      forall p: string | !IsRecordPath(p)
        ensures Find(a, p) == Find(b, p)
      {
        RecordPathIff(p);
        SameRowsSameEntry(a, b, p);
      }
    }
  }

  lemma SameRowsSameEntry(a: seq<RecordEntry>, b: seq<RecordEntry>, p: string)
    requires forall h: string, n: nat :: Find(a, p) == Some((h, n)) <==> RecordEntry(p, h, n) in a
    requires forall h: string, n: nat :: Find(b, p) == Some((h, n)) <==> RecordEntry(p, h, n) in b
    requires forall h: string, n: nat :: RecordEntry(p, h, n) in a <==> RecordEntry(p, h, n) in b
    ensures Find(a, p) == Find(b, p)
  {
    hide Find;
    if Find(a, p).Some? {
      var (h, n) := Find(a, p).value;
      assert RecordEntry(p, h, n) in a;
    }
    if Find(b, p).Some? {
      var (h, n) := Find(b, p).value;
      assert RecordEntry(p, h, n) in b;
    }
  }

  lemma {:induction false} MemberRowsAre(members: seq<Member>, hash: Hash)
    ensures |MemberRows(members, hash)| == |members|
    ensures forall i | 0 <= i < |members| :: MemberRows(members, hash)[i] == RowOf(members[i], hash)
  {
    hide Base64Url.Encode;
    if members != [] {
      MemberRowsAre(members[1..], hash);
    }
  }

  lemma ListsIffSameRows(rows: seq<RecordEntry>, members: seq<Member>, hash: Hash)
    ensures ListsExactly(rows, members, hash) <==>
            forall row: RecordEntry | LastComponent(row.path) != "RECORD" ::
              row in MemberRows(members, hash) <==> row in rows
  {
    hide LastComponent, MemberRows, Base64Url.Encode;
    MemberRowsAre(members, hash);
    var own := MemberRows(members, hash);
    forall m | m in members
      ensures RowOf(m, hash) in own
    {
      var i :| 0 <= i < |members| && members[i] == m;
      assert own[i] == RowOf(m, hash);
    }
    forall row | row in own
      ensures exists m :: m in members && row == RowOf(m, hash)
    {
      var i :| 0 <= i < |own| && own[i] == row;
      assert members[i] in members;
    }
  }

  lemma MemberPathsDistinct(es: seq<ZipEntry>, hash: Hash)
    requires ZipAdmitted(es)
    ensures FoldedDistinct(Paths(MemberRows(MembersOf(es), hash)))
  {
    MembersDistinct(es);
    MemberRowsAre(MembersOf(es), hash);
    var members := MembersOf(es);
    assert forall i | 0 <= i < |members| :: Paths(MemberRows(members, hash))[i] == members[i].name;
    hide Fold, MemberRows, MembersOf;
  }

  ghost predicate DistinctMembers(members: seq<Member>) {
    forall i, j | 0 <= i < j < |members| :: Fold(members[i].name) != Fold(members[j].name)
  }

  lemma {:induction false} MembersDistinct(es: seq<ZipEntry>)
    requires FoldedDistinct(NamesOf(es))
    ensures DistinctMembers(MembersOf(es))
    ensures forall m | m in MembersOf(es) :: m.name in NamesOf(es)
  {
    hide Fold, WithSlashes;
    if es != [] {
      var front, e := es[..|es| - 1], es[|es| - 1];
      assert NamesOf(es) == NamesOf(front) + [WithSlashes(e.name)];
      PrefixDistinct(NamesOf(front), [WithSlashes(e.name)]);
      AppendDistinct(NamesOf(front), WithSlashes(e.name));
      MembersDistinct(front);
      var members := MembersOf(front);
      forall m | m in members
        ensures Fold(m.name) != Fold(WithSlashes(e.name))
      {
        assert Fold(m.name) in FoldedSet(NamesOf(front));
      }
    }
  }

  /** What the cross-checks compute is a closure row by row. */
  lemma ClosedIff(pair: WheelPair, hash: Hash, absolute: Absolute)
    ensures Closed(pair, hash, absolute) <==> IsClosure(pair, hash, absolute)
  {
    hide ZipAdmitted, MembersOf, RecordMember, RecordOf, SameMap, FoldedDistinct, ListsExactly, LastComponent,
      MemberRows;
    if pair.wheel.Some? && ZipAdmitted(pair.wheel.value) && RecordMember(MembersOf(pair.wheel.value)).Some? {
      var members := MembersOf(pair.wheel.value);
      var file := RecordMember(members).value;
      MemberPathsDistinct(pair.wheel.value, hash);
      RecordIsDistinct(file, absolute);
      RecordIsDistinct(pair.installed, absolute);
      if RecordOf(file, absolute).Some? && RecordOf(pair.installed, absolute).Some? {
        var w, i := RecordOf(file, absolute).value, RecordOf(pair.installed, absolute).value;
        SameMapIffRows(MemberRows(members, hash), w);
        SameMapIffRows(i, w);
        ListsIffSameRows(w, members, hash);
        ListsIffSameRows(i, members, hash);
      }
    }
  }

  // ----- the code -----

  // One round of the outer loop of `prove_wheel_record_closure`.
  method ProvePair(pair: WheelPair, hash: Hash, absolute: Absolute) returns (ok: bool)
    ensures ok <==> Closed(pair, hash, absolute)
  {
    hide ZipAdmitted, MembersOf, SameMap, MemberRows, RecordOf, RecordMember, FoldedDistinct;
    if pair.wheel.None? { return false; }
    var members := InspectZip(pair.wheel.value);
    if members.None? { return false; }
    var file := FindRecord(members.value);
    if file.None? { return false; }
    var wheel := ParseRecord(file.value, absolute);
    if wheel.None? { return false; }
    var installed := ParseRecord(pair.installed, absolute);
    if installed.None? { return false; }
    if wheel.value == [] || installed.value == [] { return false; }
    RecordIsDistinct(file.value, absolute);
    ok := CrossCheck(members.value, wheel.value, installed.value, hash);
  }

  /** `prove_wheel_record_closure` succeeds exactly on one or more pairs that are all closures: nothing in the wheel but
      what the two RECORD files list with its own length and hash, and nothing listed that is not there. */
  method ProveWheelRecordClosure(pairs: seq<WheelPair>, hash: Hash, absolute: Absolute) returns (ok: bool)
    ensures ok <==> pairs != [] && forall pair | pair in pairs :: IsClosure(pair, hash, absolute)
  {
    hide Closed, IsClosure;
    if |pairs| == 0 { return false; }
    for k := 0 to |pairs|
      invariant forall j | 0 <= j < k :: IsClosure(pairs[j], hash, absolute)
    {
      assert pairs[k] in pairs;
      ClosedIff(pairs[k], hash, absolute);
      var closed := ProvePair(pairs[k], hash, absolute);
      if !closed { return false; }
    }
    return true;
  }
}
