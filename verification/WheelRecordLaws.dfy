/** What a RECORD file means: the order of its lines is irrelevant, and a written table reads back. */
module WheelRecordLaws {
  import opened Wrappers
  import opened Bytes
  import opened WheelRecord
  import opened WheelClosure
  import Base64Url
  import Decimal
  import Text
  import Utf8

  // ----- the order of lines -----

  function Both(a: Option<seq<RecordEntry>>, b: Option<seq<RecordEntry>>): Option<seq<RecordEntry>> {
    match a
    case None => None
    case Some(rows) => Prepend(rows, b)
  }

  lemma {:induction false} RowsOfConcat(a: seq<string>, b: seq<string>, absolute: Absolute)
    ensures Rows(a + b, absolute) == Both(Rows(a, absolute), Rows(b, absolute))
  {
    hide Text.Trim, ParseLine;
    if a == [] {
      assert a + b == b;
      PrependNothing(Rows(b, absolute));
    } else {
      assert (a + b)[1..] == a[1..] + b;
      RowsOfConcat(a[1..], b, absolute);
      var row := ParseLine(Text.Trim(a[0]), absolute);
      var more := Rows(a[1..], absolute);
      if Text.Trim(a[0]) != [] && row.Some? && more.Some? && Rows(b, absolute).Some? {
        assert [row.value] + (more.value + Rows(b, absolute).value) ==
               [row.value] + more.value + Rows(b, absolute).value;
      }
    }
  }

  ghost predicate Permuted(a: Option<seq<RecordEntry>>, b: Option<seq<RecordEntry>>) {
    (a.Some? <==> b.Some?) && (a.Some? ==> multiset(a.value) == multiset(b.value))
  }

  // The place in `b` of the first element of `a`, and what is left of both without it.
  lemma TakeFirst<T>(a: seq<T>, b: seq<T>) returns (j: nat)
    requires a != [] && multiset(a) == multiset(b)
    ensures j < |b| && b[j] == a[0] && b == b[..j] + ([a[0]] + b[j + 1..])
    ensures multiset(a[1..]) == multiset(b[..j] + b[j + 1..])
  {
    var x := a[0];
    assert a == [x] + a[1..] && x in multiset(b);
    j :| 0 <= j < |b| && b[j] == x;
    assert b == b[..j] + ([x] + b[j + 1..]);
    assert multiset(a) == multiset{x} + multiset(a[1..]);
    assert multiset(b) == multiset(b[..j]) + (multiset{x} + multiset(b[j + 1..]));
    assert multiset(b[..j] + b[j + 1..]) == multiset(b) - multiset{x};
  }

  lemma {:induction false} RowsOfPermutation(a: seq<string>, b: seq<string>, absolute: Absolute)
    requires multiset(a) == multiset(b)
    ensures Permuted(Rows(a, absolute), Rows(b, absolute))
    decreases |a|
  {
    hide Rows;
    if a == [] {
      assert |multiset(b)| == 0 && b == [];
    } else {
      var x := a[0];
      var j := TakeFirst(a, b);
      assert a == [x] + a[1..];
      RowsOfPermutation(a[1..], b[..j] + b[j + 1..], absolute);
      RowsOfConcat([x], a[1..], absolute);
      RowsOfConcat(b[..j], b[j + 1..], absolute);
      RowsOfConcat(b[..j], [x] + b[j + 1..], absolute);
      RowsOfConcat([x], b[j + 1..], absolute);
    }
  }

  lemma InsertDistinct(p: seq<string>, x: string, q: seq<string>)
    ensures FoldedDistinct(p + [x] + q) <==> FoldedDistinct(p + q) && Fold(x) !in FoldedSet(p + q)
  {
    hide FoldedDistinct, FoldedSet, Fold;
    if FoldedDistinct(p + [x] + q) {
      RemoveKeepsDistinct(p, x, q);
    }
    if FoldedDistinct(p + q) && Fold(x) !in FoldedSet(p + q) {
      InsertKeepsDistinct(p, x, q);
    }
  }

  lemma RemoveKeepsDistinct(p: seq<string>, x: string, q: seq<string>)
    requires FoldedDistinct(p + [x] + q)
    ensures FoldedDistinct(p + q) && Fold(x) !in FoldedSet(p + q)
  {
    hide Fold;
    var all, rest := p + [x] + q, p + q;
    forall i, j | 0 <= i < j < |rest|
      ensures Fold(rest[i]) != Fold(rest[j])
    {
      assert Fold(all[if i < |p| then i else i + 1]) != Fold(all[if j < |p| then j else j + 1]);
    }
    forall s | s in rest
      ensures Fold(s) != Fold(x)
    {
      var i :| 0 <= i < |rest| && rest[i] == s;
      if i < |p| {
        assert Fold(all[i]) != Fold(all[|p|]);
      } else {
        assert Fold(all[|p|]) != Fold(all[i + 1]);
      }
    }
  }

  lemma InsertKeepsDistinct(p: seq<string>, x: string, q: seq<string>)
    requires FoldedDistinct(p + q) && Fold(x) !in FoldedSet(p + q)
    ensures FoldedDistinct(p + [x] + q)
  {
    hide Fold;
    var all, rest := p + [x] + q, p + q;
    forall s | s in rest
      ensures Fold(s) != Fold(x)
    {
    }
    forall i, j | 0 <= i < j < |all|
      ensures Fold(all[i]) != Fold(all[j])
    {
      if i == |p| {
        assert rest[j - 1] in rest;
      } else if j == |p| {
        assert rest[i] in rest;
      } else {
        assert Fold(rest[if i < |p| then i else i - 1]) != Fold(rest[if j < |p| then j else j - 1]);
      }
    }
  }

  lemma PathsAround(rows: seq<RecordEntry>, j: nat)
    requires j < |rows|
    ensures Paths(rows) == Paths(rows[..j]) + [rows[j].path] + Paths(rows[j + 1..])
    ensures Paths(rows[..j] + rows[j + 1..]) == Paths(rows[..j]) + Paths(rows[j + 1..])
  {
  }

  lemma SamePathsSameSet(a: seq<RecordEntry>, b: seq<RecordEntry>)
    requires multiset(a) == multiset(b)
    ensures FoldedSet(Paths(a)) == FoldedSet(Paths(b))
  {
    hide Fold;
    FoldedPaths(a);
    FoldedPaths(b);
    assert forall row :: row in a <==> row in multiset(a);
    assert forall row :: row in b <==> row in multiset(b);
  }

  lemma FoldedPaths(rows: seq<RecordEntry>)
    ensures FoldedSet(Paths(rows)) == set row | row in rows :: Fold(row.path)
  {
    hide Fold;
    assert forall i | 0 <= i < |rows| :: Paths(rows)[i] == rows[i].path && rows[i] in rows;
    forall row | row in rows
      ensures row.path in Paths(rows)
    {
      var i :| 0 <= i < |rows| && rows[i] == row;
      assert Paths(rows)[i] == row.path;
    }
  }

  lemma {:induction false} DistinctOfPermutation(a: seq<RecordEntry>, b: seq<RecordEntry>)
    requires multiset(a) == multiset(b)
    ensures FoldedDistinct(Paths(a)) <==> FoldedDistinct(Paths(b))
    decreases |a|
  {
    hide Fold, FoldedSet, FoldedDistinct, Paths;
    if a == [] {
      assert |multiset(b)| == 0 && b == [];
    } else {
      var j := TakeFirst(a, b);
      assert a[..0] + a[1..] == a[1..];
      var rest := b[..j] + b[j + 1..];
      DistinctOfPermutation(a[1..], rest);
      SamePathsSameSet(a[1..], rest);
      PathsAround(a, 0);
      PathsAround(b, j);
      InsertDistinct(Paths(a[..0]), a[0].path, Paths(a[1..]));
      InsertDistinct(Paths(b[..j]), b[j].path, Paths(b[j + 1..]));
    }
  }

  lemma FindOfPermutation(a: seq<RecordEntry>, b: seq<RecordEntry>, path: string)
    requires multiset(a) == multiset(b) && FoldedDistinct(Paths(a))
    ensures Find(a, path) == Find(b, path)
  {
    DistinctOfPermutation(a, b);
    hide Fold, FoldedDistinct;
    FoundIff(a, path);
    FoundIff(b, path);
    assert forall row :: row in a <==> row in multiset(a);
    assert forall row :: row in b <==> row in multiset(b);
    if Find(a, path).Some? {
      var row :| row in a && row.path == path;
      var i :| 0 <= i < |a| && a[i] == row;
      var j :| 0 <= j < |b| && b[j] == row;
      RowIsFound(a, i);
      RowIsFound(b, j);
    }
  }

  lemma {:induction false} CharInParts(s: string, sep: char, c: char)
    requires c != sep
    ensures c in s <==> exists part | part in Text.SplitOn(s, sep) :: c in part
  {
    if s == [] {
      assert Text.SplitOn(s, sep) == [[]];
    } else {
      CharInParts(s[1..], sep, c);
      var rest := Text.SplitOn(s[1..], sep);
      assert c in s <==> c == s[0] || c in s[1..];
      if s[0] == sep {
        assert forall part :: part in Text.SplitOn(s, sep) <==> part == [] || part in rest;
      } else {
        var first := [s[0]] + rest[0];
        assert forall part :: part in Text.SplitOn(s, sep) <==> part == first || part in rest[1..];
        assert forall part :: part in rest <==> part == rest[0] || part in rest[1..];
        assert c in first <==> c == s[0] || c in rest[0];
      }
    }
  }

  /** The two results are both errors, or are tables of equal length that give every path the same hash and size. */
  ghost predicate SameTable(a: Option<seq<RecordEntry>>, b: Option<seq<RecordEntry>>) {
    (a.Some? <==> b.Some?) &&
    (a.Some? ==> |a.value| == |b.value| && forall p: string :: Find(a.value, p) == Find(b.value, p))
  }

  /** Two RECORD files with the same lines in any order mean the same. */
  lemma LineOrderIsIrrelevant(a: seq<byte>, b: seq<byte>, absolute: Absolute)
    requires Utf8.IsUtf8(a) && Utf8.IsUtf8(b)
    requires multiset(LinesOf(Utf8.Decode(a).value)) == multiset(LinesOf(Utf8.Decode(b).value))
    ensures SameTable(RecordOf(a, absolute), RecordOf(b, absolute))
  {
    hide Rows, FoldedDistinct, Text.SplitOn;
    var s, t := Utf8.Decode(a).value, Utf8.Decode(b).value;
    CharInParts(s, '\n', '\0');
    CharInParts(t, '\n', '\0');
    SameElements(LinesOf(s), LinesOf(t));
    RowsOfPermutation(LinesOf(s), LinesOf(t), absolute);
    var x, y := Rows(LinesOf(s), absolute), Rows(LinesOf(t), absolute);
    if x.Some? {
      DistinctOfPermutation(x.value, y.value);
      assert |x.value| == |multiset(x.value)| == |multiset(y.value)| == |y.value|;
      if FoldedDistinct(Paths(x.value)) {
        forall p: string
          ensures Find(x.value, p) == Find(y.value, p)
        {
          FindOfPermutation(x.value, y.value, p);
        }
      }
    }
  }

  lemma SameElements(a: seq<string>, b: seq<string>)
    requires multiset(a) == multiset(b)
    ensures forall x :: x in a <==> x in b
  {
    assert forall x :: x in a <==> x in multiset(a);
    assert forall x :: x in b <==> x in multiset(b);
  }

  // ----- line order in a closure -----

  /** The bytes are the same, or they are texts of the same lines in some order. */
  ghost predicate SameLines(a: seq<byte>, b: seq<byte>) {
    a == b || (Utf8.IsUtf8(a) && Utf8.IsUtf8(b) &&
               multiset(LinesOf(Utf8.Decode(a).value)) == multiset(LinesOf(Utf8.Decode(b).value)))
  }

  // One archive entry for another: the same, or the RECORD with its lines in another order.
  ghost predicate SameEntry(e: ZipEntry, f: ZipEntry) {
    e == f || (EndsWith(WithSlashes(e.name), RECORD_SUFFIX) && e.content.Some? && f.content.Some? &&
               f == e.(content := f.content) && SameLines(e.content.value, f.content.value))
  }

  ghost predicate SameArchive(es: seq<ZipEntry>, fs: seq<ZipEntry>) {
    |es| == |fs| && forall i | 0 <= i < |es| :: SameEntry(es[i], fs[i])
  }

  /** The pairs differ in the order of the lines of the RECORD inside the wheel and of the installed RECORD alone. */
  ghost predicate SamePair(a: WheelPair, b: WheelPair) {
    && (a.wheel.Some? <==> b.wheel.Some?)
    && (a.wheel.Some? ==> SameArchive(a.wheel.value, b.wheel.value))
    && SameLines(a.installed, b.installed)
  }

  ghost predicate SameMember(m: Member, n: Member) {
    m == n || (m.name == n.name && EndsWith(m.name, RECORD_SUFFIX) && SameLines(m.content, n.content))
  }

  ghost predicate SameMembers(a: seq<Member>, b: seq<Member>) {
    |a| == |b| && forall i | 0 <= i < |a| :: SameMember(a[i], b[i])
  }

  lemma SameAdmission(es: seq<ZipEntry>, fs: seq<ZipEntry>)
    requires SameArchive(es, fs) && ZipAdmitted(es)
    ensures ZipAdmitted(fs)
  {
    hide FoldedDistinct, SameLines, EndsWith;
    assert forall i | 0 <= i < |es| :: SameEntry(es[i], fs[i]) && es[i] in es;
    assert NamesOf(es) == NamesOf(fs);
  }

  lemma SameEntryBack(e: ZipEntry, f: ZipEntry)
    requires SameEntry(e, f)
    ensures SameEntry(f, e)
  {
    hide EndsWith, WithSlashes, LinesOf;
  }

  lemma {:induction false} MembersAreSame(es: seq<ZipEntry>, fs: seq<ZipEntry>)
    requires SameArchive(es, fs)
    ensures SameMembers(MembersOf(es), MembersOf(fs))
  {
    hide EndsWith, WithSlashes, SameLines;
    if es != [] {
      MembersAreSame(es[..|es| - 1], fs[..|es| - 1]);
      assert SameEntry(es[|es| - 1], fs[|es| - 1]);
    }
  }

  lemma {:induction false} RecordIsSame(a: seq<Member>, b: seq<Member>)
    requires SameMembers(a, b)
    ensures RecordMember(a).Some? <==> RecordMember(b).Some?
    ensures RecordMember(a).Some? ==> SameLines(RecordMember(a).value, RecordMember(b).value)
  {
    hide EndsWith, LinesOf, Utf8.IsUtf8;
    if a != [] {
      assert SameMember(a[0], b[0]);
      RecordIsSame(a[1..], b[1..]);
    }
  }

  lemma {:induction false} RowsAreSame(a: seq<Member>, b: seq<Member>, hash: Hash, path: string)
    requires SameMembers(a, b) && !IsRecordPath(path)
    ensures Find(MemberRows(a, hash), path) == Find(MemberRows(b, hash), path)
  {
    hide RecordHash, SameLines;
    if a != [] {
      assert SameMember(a[0], b[0]);
      RowsAreSame(a[1..], b[1..], hash, path);
      assert MemberRows(a, hash)[1..] == MemberRows(a[1..], hash);
      assert MemberRows(b, hash)[1..] == MemberRows(b[1..], hash);
      if EndsWith(a[0].name, RECORD_SUFFIX) { RecordFileIsRecordPath(a[0].name); }
    }
  }

  lemma RecordFileIsRecordPath(name: string)
    requires EndsWith(name, RECORD_SUFFIX)
    ensures IsRecordPath(name)
  {
    assert RECORD_SUFFIX[|RECORD_SUFFIX| - 7..] == "/RECORD";
    assert name[|name| - 7..] == name[|name| - |RECORD_SUFFIX|..][|RECORD_SUFFIX| - 7..];
  }

  lemma SameLinesSameTable(a: seq<byte>, b: seq<byte>, absolute: Absolute)
    requires SameLines(a, b)
    ensures SameTable(RecordOf(a, absolute), RecordOf(b, absolute))
  {
    if a != b { LineOrderIsIrrelevant(a, b, absolute); }
    hide RecordOf, LinesOf, Utf8.IsUtf8, Find;
  }

  lemma ClosedStays(pair: WheelPair, other: WheelPair, hash: Hash, absolute: Absolute)
    requires SamePair(pair, other) && Closed(pair, hash, absolute)
    ensures Closed(other, hash, absolute)
  {
    var a, b := MembersOf(pair.wheel.value), MembersOf(other.wheel.value);
    SameAdmission(pair.wheel.value, other.wheel.value);
    MembersAreSame(pair.wheel.value, other.wheel.value);
    RecordIsSame(a, b);
    SameLinesSameTable(RecordMember(a).value, RecordMember(b).value, absolute);
    SameLinesSameTable(pair.installed, other.installed, absolute);
    hide ZipAdmitted, MembersOf, RecordOf, RecordMember, Find, MemberRows, IsRecordPath, SameLines, SameArchive,
      SameMembers;
    forall path: string | !IsRecordPath(path)
      ensures Find(MemberRows(a, hash), path) == Find(MemberRows(b, hash), path)
    {
      RowsAreSame(a, b, hash, path);
    }
  }

  /** The closure of a pair depends neither on the order of the lines of the RECORD inside the wheel nor on that of the
      installed RECORD. */
  lemma ClosureIgnoresLineOrder(pair: WheelPair, other: WheelPair, hash: Hash, absolute: Absolute)
    requires SamePair(pair, other)
    ensures Closed(pair, hash, absolute) <==> Closed(other, hash, absolute)
  {
    hide Closed, SameEntry, SameLines;
    if Closed(pair, hash, absolute) { ClosedStays(pair, other, hash, absolute); }
    if Closed(other, hash, absolute) {
      SamePairBack(pair, other);
      ClosedStays(other, pair, hash, absolute);
    }
  }

  lemma SamePairBack(pair: WheelPair, other: WheelPair)
    requires SamePair(pair, other)
    ensures SamePair(other, pair)
  {
    if pair.wheel.Some? {
      forall i | 0 <= i < |pair.wheel.value|
        ensures SameEntry(other.wheel.value[i], pair.wheel.value[i])
      {
        SameEntryBack(pair.wheel.value[i], other.wheel.value[i]);
      }
    }
  }

  /** Lines in another order make a file of the same length, so the archive's declared size stays right. */
  lemma SameLinesSameLength(a: seq<byte>, b: seq<byte>)
    requires SameLines(a, b)
    ensures |a| == |b|
  {
    if a != b {
      var s, t := Utf8.Decode(a).value, Utf8.Decode(b).value;
      Utf8.EncodeDecode(a);
      Utf8.EncodeDecode(b);
      Text.JoinSplit(s, '\n');
      Text.JoinSplit(t, '\n');
      JoinedSize(LinesOf(s));
      JoinedSize(LinesOf(t));
      SizeOfPermutation(LinesOf(s), LinesOf(t));
    }
  }

  // The bytes of all lines, each with its line feed.
  function LineBytes(lines: seq<string>): nat {
    if lines == [] then 0 else |Utf8.Encode(lines[0])| + 1 + LineBytes(lines[1..])
  }

  lemma {:induction false} EncodeConcat(s: string, t: string)
    ensures Utf8.Encode(s + t) == Utf8.Encode(s) + Utf8.Encode(t)
  {
    hide Utf8.EncodeChar;
    if s == [] {
      assert s + t == t;
    } else {
      assert (s + t)[1..] == s[1..] + t;
      EncodeConcat(s[1..], t);
    }
  }

  lemma {:induction false} JoinedSize(lines: seq<string>)
    requires lines != []
    ensures |Utf8.Encode(Text.JoinWith(lines, '\n'))| + 1 == LineBytes(lines)
  {
    if |lines| == 1 {
      assert lines[1..] == [];
    } else {
      JoinedSize(lines[1..]);
      EncodeConcat(lines[0] + ['\n'], Text.JoinWith(lines[1..], '\n'));
      EncodeConcat(lines[0], ['\n']);
      assert ['\n'][1..] == [] && |Utf8.Encode(['\n'])| == 1;
    }
  }

  lemma {:induction false} LineBytesSplit(a: seq<string>, b: seq<string>)
    ensures LineBytes(a + b) == LineBytes(a) + LineBytes(b)
  {
    if a == [] {
      assert a + b == b;
    } else {
      assert (a + b)[1..] == a[1..] + b;
      LineBytesSplit(a[1..], b);
    }
  }

  lemma {:induction false} SizeOfPermutation(a: seq<string>, b: seq<string>)
    requires multiset(a) == multiset(b)
    ensures LineBytes(a) == LineBytes(b)
    decreases |a|
  {
    if a == [] {
      assert |multiset(b)| == 0 && b == [];
    } else {
      var j := TakeFirst(a, b);
      SizeOfPermutation(a[1..], b[..j] + b[j + 1..]);
      LineBytesSplit(b[..j], b[j + 1..]);
      LineBytesSplit(b[..j], [a[0]] + b[j + 1..]);
      assert ([a[0]] + b[j + 1..])[1..] == b[j + 1..];
    }
  }

  // ----- what a closure promises -----

  // The table has a row for the file, and each row it has for it gives the file's length and a hash text that no
  // content of another digest has.
  ghost predicate ListsFile(rows: seq<RecordEntry>, m: Member, hash: Hash) {
    && (exists row :: row in rows && row.path == m.name)
    && (forall row | row in rows && row.path == m.name ::
          row.size == |m.content| && OnlyTextOf(row.hash, m.content, hash))
  }

  ghost predicate OnlyTextOf(text: string, content: seq<byte>, hash: Hash) {
    forall other: seq<byte> | text == "sha256=" + Base64Url.Encode(hash(other)) :: hash(other) == hash(content)
  }

  /** In a closed pair every file of the wheel whose last component is not RECORD is listed in both RECORD files with
      its own length and a hash text that no content of another digest has. */
  lemma InstalledRowsAreTheFiles(pair: WheelPair, hash: Hash, absolute: Absolute, m: Member)
    requires IsClosure(pair, hash, absolute)
    requires m in MembersOf(pair.wheel.value) && LastComponent(m.name) != "RECORD"
    ensures ListsFile(RecordOf(RecordMember(MembersOf(pair.wheel.value)).value, absolute).value, m, hash)
    ensures ListsFile(RecordOf(pair.installed, absolute).value, m, hash)
  {
    var members := MembersOf(pair.wheel.value);
    MembersDistinct(pair.wheel.value);
    hide ZipAdmitted, MembersOf, RecordOf, RecordMember, LastComponent, ListsExactly, ListsFile, DistinctMembers;
    ListedFile(RecordOf(RecordMember(members).value, absolute).value, members, m, hash);
    ListedFile(RecordOf(pair.installed, absolute).value, members, m, hash);
  }

  lemma ListedFile(rows: seq<RecordEntry>, members: seq<Member>, m: Member, hash: Hash)
    requires ListsExactly(rows, members, hash) && DistinctMembers(members)
    requires m in members && LastComponent(m.name) != "RECORD"
    ensures ListsFile(rows, m, hash)
  {
    hide LastComponent, Fold;
    assert RowOf(m, hash) in rows && RowOf(m, hash).path == m.name;
    forall row | row in rows && row.path == m.name
      ensures row.size == |m.content| && OnlyTextOf(row.hash, m.content, hash)
    {
      var n :| n in members && row == RowOf(n, hash);
      assert n == m;
      forall other: seq<byte> | row.hash == "sha256=" + Base64Url.Encode(hash(other))
        ensures hash(other) == hash(m.content)
      {
        RecordHashDetermines(other, m.content, hash);
      }
    }
  }

  // ----- reading back a written table -----

  function RenderRow(row: RecordEntry): string {
    Text.JoinWith([row.path, row.hash, Decimal.Digits(row.size)], ',')
  }

  function RenderRows(rows: seq<RecordEntry>): seq<string> {
    if rows == [] then [] else [RenderRow(rows[0])] + RenderRows(rows[1..])
  }

  predicate Plain(s: string) { ',' !in s && '\n' !in s && '\0' !in s }

  // A row that one line can hold.
  predicate Writable(row: RecordEntry, absolute: Absolute) {
    Plain(row.path) && Plain(row.hash) && '\\' !in row.path && PathAllowed(row.path, absolute) &&
    !Text.IsWhitespace(row.path[0]) && row.size <= U64_MAX
  }

  lemma RowReadsBack(row: RecordEntry, absolute: Absolute)
    requires Writable(row, absolute)
    ensures Text.Trim(RenderRow(row)) == RenderRow(row) != []
    ensures ParseLine(RenderRow(row), absolute) == Some(row)
    ensures '\n' !in RenderRow(row) && '\0' !in RenderRow(row)
  {
    var digits := Decimal.Digits(row.size);
    var parts := [row.path, row.hash, digits];
    assert parts[1..] == [row.hash, digits] && parts[1..][1..] == [digits];
    assert Text.JoinWith([digits], ',') == digits;
    assert Text.JoinWith(parts[1..], ',') == row.hash + [','] + digits;
    var line := RenderRow(row);
    assert line == row.path + [','] + (row.hash + [','] + digits);
    assert line[0] == row.path[0] && line[|line| - 1] == digits[|digits| - 1];
    assert forall c | c in digits :: Text.IsDigit(c);
    Text.SplitJoin(parts, ',');
    assert WithSlashes(row.path) == row.path;
    Decimal.ParseInvertsDigits(row.size);
  }

  lemma {:induction false} RowsReadBack(rows: seq<RecordEntry>, absolute: Absolute)
    requires forall row | row in rows :: Writable(row, absolute)
    ensures Rows(RenderRows(rows), absolute) == Some(rows)
    ensures forall line | line in RenderRows(rows) :: '\n' !in line && '\0' !in line
    ensures |RenderRows(rows)| == |rows|
  {
    if rows != [] {
      RowReadsBack(rows[0], absolute);
      hide RenderRow, ParseLine, Text.Trim, Writable;
      RowsReadBack(rows[1..], absolute);
      assert RenderRows(rows)[1..] == RenderRows(rows[1..]);
      assert rows == [rows[0]] + rows[1..];
    }
  }

  /** A table of writable rows whose paths differ in more than case, written one row a line, reads back as itself. */
  lemma RecordReadsBack(rows: seq<RecordEntry>, absolute: Absolute)
    requires rows != [] && FoldedDistinct(Paths(rows)) && forall row | row in rows :: Writable(row, absolute)
    ensures RecordOf(Utf8.Encode(Text.JoinWith(RenderRows(rows), '\n')), absolute) == Some(rows)
  {
    RowsReadBack(rows, absolute);
    hide RenderRows, Rows, FoldedDistinct, Writable;
    var lines := RenderRows(rows);
    var text := Text.JoinWith(lines, '\n');
    Text.SplitJoin(lines, '\n');
    Utf8.DecodeEncode(text);
    CharInParts(text, '\n', '\0');
  }
}
