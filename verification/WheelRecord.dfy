/** Wheel RECORD closure: the members of a wheel, the RECORD inside it and the RECORD of the installed copy. */
module WheelRecord {
  import opened Wrappers
  import opened Bytes
  import Base64Url
  import Decimal
  import Text
  import Utf8

  datatype RecordEntry = RecordEntry(path: string, hash: string, size: nat)
  datatype Member = Member(name: string, content: seq<byte>)

  // An entry of a ZIP archive as the ZIP reader presents it: `confined` if its path has only normal components,
  // `content` if it decompresses to the declared length.
  datatype ZipEntry = ZipEntry(name: string, encrypted: bool, confined: bool, symlink: bool, directory: bool,
                               size: nat, content: Option<seq<byte>>)

  // A wheel (None if it is not a ZIP archive) and the bytes of the RECORD of its installed copy.
  datatype WheelPair = WheelPair(wheel: Option<seq<ZipEntry>>, installed: seq<byte>)

  // `Path::is_absolute` of the host.
  type Absolute = string -> bool

  const MAX_ENTRIES := 4096
  const MAX_MEMBER := 64 * 1024 * 1024
  const RECORD_SUFFIX := ".dist-info/RECORD"

  predicate EndsWith(s: string, suffix: string) { |s| >= |suffix| && s[|s| - |suffix|..] == suffix }

  predicate IsRecordPath(path: string) { EndsWith(path, "/RECORD") || path == "RECORD" }

  // ----- ASCII case folding -----

  function FoldChar(c: char): char { if Text.IsUpper(c) then (c as int + 32) as char else c }

  /** `to_ascii_lowercase`. */
  function Fold(s: string): string { seq(|s|, i requires 0 <= i < |s| => FoldChar(s[i])) }

  predicate FoldedDistinct(names: seq<string>) {
    forall i, j | 0 <= i < j < |names| :: Fold(names[i]) != Fold(names[j])
  }

  function FoldedSet(names: seq<string>): set<string> { set s | s in names :: Fold(s) }

  lemma AppendDistinct(names: seq<string>, x: string)
    ensures FoldedSet(names + [x]) == FoldedSet(names) + {Fold(x)}
    ensures FoldedDistinct(names + [x]) <==> FoldedDistinct(names) && Fold(x) !in FoldedSet(names)
  {
    hide Fold;
    var all := names + [x];
    assert x in all;
    forall s | s in names
      ensures s in all
    {
    }
    if FoldedDistinct(all) {
      forall i, j | 0 <= i < j < |names|
        ensures Fold(names[i]) != Fold(names[j])
      {
        assert all[i] == names[i] && all[j] == names[j];
      }
      forall s | s in names
        ensures Fold(s) != Fold(x)
      {
        var i :| 0 <= i < |names| && names[i] == s;
        assert Fold(all[i]) != Fold(all[|names|]);
      }
    }
  }

  lemma PrefixDistinct(names: seq<string>, more: seq<string>)
    requires FoldedDistinct(names + more)
    ensures FoldedDistinct(names)
  {
    hide Fold;
    assert forall i | 0 <= i < |names| :: (names + more)[i] == names[i];
  }

  // ----- the ZIP inspection -----

  function WithSlashes(s: string): string {
    seq(|s|, i requires 0 <= i < |s| => if s[i] == '\\' then '/' else s[i])
  }

  function NamesOf(es: seq<ZipEntry>): seq<string> {
    seq(|es|, i requires 0 <= i < |es| => WithSlashes(es[i].name))
  }

  predicate EntryAdmitted(e: ZipEntry) {
    !e.encrypted && e.confined && !e.symlink && (e.directory || (e.size <= MAX_MEMBER && e.content.Some?))
  }

  predicate ZipAdmitted(es: seq<ZipEntry>) {
    0 < |es| <= MAX_ENTRIES && FoldedDistinct(NamesOf(es)) && forall e | e in es :: EntryAdmitted(e)
  }

  /** The files of the archive, in its order. */
  function MembersOf(es: seq<ZipEntry>): seq<Member> {
    if es == [] then []
    else
      var e := es[|es| - 1];
      MembersOf(es[..|es| - 1]) +
      (if e.directory || e.content.None? then [] else [Member(WithSlashes(e.name), e.content.value)])
  }

  // `replace('\\', "/")`.
  method ReplaceBackslashes(s: string) returns (r: string)
    ensures r == WithSlashes(s)
  {
    r := "";
    for k := 0 to |s|
      invariant |r| == k && r == WithSlashes(s)[..k]
    {
      r := r + [if s[k] == '\\' then '/' else s[k]];
    }
  }

  // `to_ascii_lowercase`.
  method ToAsciiLowercase(s: string) returns (r: string)
    ensures r == Fold(s)
  {
    r := "";
    for k := 0 to |s|
      invariant |r| == k && r == Fold(s)[..k]
    {
      r := r + [if 0x41 <= s[k] as int <= 0x5A then (s[k] as int + 0x20) as char else s[k]];
    }
  }

  /** The loop of `inspect_zip`. */
  method InspectZip(es: seq<ZipEntry>) returns (r: Option<seq<Member>>)
    ensures r == if ZipAdmitted(es) then Some(MembersOf(es)) else None
  {
    hide Fold, WithSlashes, FoldedDistinct, FoldedSet;
    if |es| == 0 || |es| > 4096 { return None; }
    var names: set<string> := {};
    var members := [];
    EmptyDistinct();
    assert NamesOf(es[..0]) == [];
    for i := 0 to |es|
      invariant FoldedDistinct(NamesOf(es[..i])) && names == FoldedSet(NamesOf(es[..i]))
      invariant forall e | e in es[..i] :: EntryAdmitted(e)
      invariant members == MembersOf(es[..i])
    {
      var e := es[i];
      assert e in es;
      var name := ReplaceBackslashes(e.name);
      var folded := ToAsciiLowercase(name);
      AppendDistinct(NamesOf(es[..i]), name);
      assert es[..i + 1][..i] == es[..i];
      assert NamesOf(es[..i + 1]) == NamesOf(es[..i]) + [name];
      assert NamesOf(es) == NamesOf(es[..i + 1]) + NamesOf(es[i + 1..]);
      if e.encrypted { return None; }
      if folded in names {
        if FoldedDistinct(NamesOf(es)) { PrefixDistinct(NamesOf(es[..i + 1]), NamesOf(es[i + 1..])); }
        return None;
      }
      names := names + {folded};
      if !e.confined || e.symlink { return None; }
      if !e.directory {
        if e.size > 64 * 1024 * 1024 || e.content.None? { return None; }
        members := members + [Member(name, e.content.value)];
      }
    }
    assert es[..|es|] == es;
    return Some(members);
  }

  lemma EmptyDistinct()
    ensures NamesOf([]) == [] && FoldedDistinct([]) && FoldedSet([]) == {}
  {
  }

  // ----- RECORD files -----

  predicate HasDots(path: string) {
    exists i | 0 <= i < |path| :: DotsAt(path, i)
  }

  predicate DotsAt(path: string, i: nat)
    requires i < |path|
  {
    i + 1 < |path| && path[i] == '.' && path[i + 1] == '.'
  }

  predicate PathAllowed(path: string, absolute: Absolute) {
    path != [] && path[0] != '/' && !HasDots(path) && !absolute(path)
  }

  /** A line `path,hash,size`; an empty size is zero. */
  function ParseLine(line: string, absolute: Absolute): Option<RecordEntry> {
    var parts := Text.SplitOn(line, ',');
    if |parts| != 3 then None
    else
      var path := WithSlashes(parts[0]);
      if !PathAllowed(path, absolute) then None
      else if parts[2] == [] then Some(RecordEntry(path, parts[1], 0))
      else
        match Decimal.ParseU64(parts[2])
        case None => None
        case Some(size) => Some(RecordEntry(path, parts[1], size))
  }

  /** The rows of the lines that are not blank; None if one of them is not a row. */
  function Rows(lines: seq<string>, absolute: Absolute): Option<seq<RecordEntry>> {
    if lines == [] then Some([])
    else if Text.Trim(lines[0]) == [] then Rows(lines[1..], absolute)
    else
      match ParseLine(Text.Trim(lines[0]), absolute)
      case None => None
      case Some(row) => Prepend([row], Rows(lines[1..], absolute))
  }

  function Prepend(rows: seq<RecordEntry>, more: Option<seq<RecordEntry>>): Option<seq<RecordEntry>> {
    match more
    case None => None
    case Some(rest) => Some(rows + rest)
  }

  function Paths(rows: seq<RecordEntry>): seq<string> {
    seq(|rows|, i requires 0 <= i < |rows| => rows[i].path)
  }

  function RowsOfLines(lines: seq<string>, absolute: Absolute): Option<seq<RecordEntry>> {
    match Rows(lines, absolute)
    case None => None
    case Some(rows) => if FoldedDistinct(Paths(rows)) then Some(rows) else None
  }

  // A carriage return before the line feed is white space, so it is trimmed with the rest of the line; a missing
  // last line is a blank one.
  function LinesOf(text: string): seq<string> { Text.SplitOn(text, '\n') }

  /** The table that the bytes of a RECORD file denote. */
  function RecordOf(bytes: seq<byte>, absolute: Absolute): Option<seq<RecordEntry>> {
    match Utf8.Decode(bytes)
    case None => None
    case Some(text) => if '\0' in text then None else RowsOfLines(LinesOf(text), absolute)
  }

  /** `contains("..")`. */
  method ContainsDots(path: string) returns (found: bool)
    ensures found <==> HasDots(path)
  {
    for i := 0 to |path|
      invariant forall j: nat | j < i :: !DotsAt(path, j)
    {
      if i + 1 < |path| && path[i..i + 2] == ".." {
        assert path[i] == path[i..i + 2][0] && path[i + 1] == path[i..i + 2][1];
        assert DotsAt(path, i);
        return true;
      }
      if i + 1 < |path| { assert path[i..i + 2] == [path[i], path[i + 1]]; }
    }
    return false;
  }

  // One line of the file, trimmed and not empty.
  method ReadRow(line: string, absolute: Absolute) returns (r: Option<RecordEntry>)
    ensures r == ParseLine(line, absolute)
  {
    hide HasDots, WithSlashes;
    var parts := Text.SplitOn(line, ',');
    if |parts| != 3 { return None; }
    var path := ReplaceBackslashes(parts[0]);
    var dots := ContainsDots(path);
    if path == "" || path[0] == '/' || dots || absolute(path) { return None; }
    if parts[2] == "" { return Some(RecordEntry(path, parts[1], 0)); }
    var size := Decimal.ParseU64(parts[2]);
    if size.None? { return None; }
    return Some(RecordEntry(path, parts[1], size.value));
  }

  /** The loop of `parse_record`. */
  method ParseRecord(bytes: seq<byte>, absolute: Absolute) returns (r: Option<seq<RecordEntry>>)
    ensures r == RecordOf(bytes, absolute)
  {
    hide Fold, FoldedDistinct, FoldedSet, Text.Trim, ParseLine;
    var decoded := Utf8.Decode(bytes);
    if decoded.None? { return None; }
    if '\0' in decoded.value { return None; }
    var lines := LinesOf(decoded.value);
    var entries := [];
    var seen: set<string> := {};
    var i := 0;
    assert Paths([]) == [] && lines[0..] == lines;
    EmptyDistinct();
    PrependNothing(Rows(lines, absolute));
    while i < |lines|
      invariant 0 <= i <= |lines|
      invariant Rows(lines, absolute) == Prepend(entries, Rows(lines[i..], absolute))
      invariant FoldedDistinct(Paths(entries)) && seen == FoldedSet(Paths(entries))
    {
      assert lines[i..][0] == lines[i] && lines[i..][1..] == lines[i + 1..];
      var line := Text.Trim(lines[i]);
      if line != [] {
        var row := ReadRow(line, absolute);
        if row.None? { return None; }
        var path := row.value.path;
        AppendDistinct(Paths(entries), path);
        assert Paths(entries + [row.value]) == Paths(entries) + [path];
        PrependTwice(entries, row.value, Rows(lines[i + 1..], absolute));
        var folded := ToAsciiLowercase(path);
        if folded in seen {
          CollisionStays(entries + [row.value], Rows(lines[i + 1..], absolute));
          return None;
        }
        seen := seen + {folded};
        entries := entries + [row.value];
      }
      i := i + 1;
    }
    assert entries + [] == entries;
    return Some(entries);
  }

  lemma PrependNothing(more: Option<seq<RecordEntry>>)
    ensures Prepend([], more) == more
  {
    if more.Some? {
      assert [] + more.value == more.value;
    }
  }

  lemma PrependTwice(rows: seq<RecordEntry>, row: RecordEntry, more: Option<seq<RecordEntry>>)
    ensures Prepend(rows, Prepend([row], more)) == Prepend(rows + [row], more)
  {
    if more.Some? {
      assert rows + ([row] + more.value) == rows + [row] + more.value;
    }
  }

  lemma CollisionStays(rows: seq<RecordEntry>, more: Option<seq<RecordEntry>>)
    requires !FoldedDistinct(Paths(rows))
    ensures more.Some? ==> !FoldedDistinct(Paths(rows + more.value))
  {
    hide FoldedDistinct;
    if more.Some? && FoldedDistinct(Paths(rows + more.value)) {
      assert Paths(rows + more.value) == Paths(rows) + Paths(more.value);
      PrefixDistinct(Paths(rows), Paths(more.value));
    }
  }

  // ----- tables as finite maps -----

  /** The hash and size that a table gives to a path: those of its first row. */
  function Find(rows: seq<RecordEntry>, path: string): Option<(string, nat)> {
    if rows == [] then None
    else if rows[0].path == path then Some((rows[0].hash, rows[0].size))
    else Find(rows[1..], path)
  }

  /** The two tables are the same finite map, apart from the RECORD files themselves. */
  ghost predicate SameMap(a: seq<RecordEntry>, b: seq<RecordEntry>) {
    forall p: string | !IsRecordPath(p) :: Find(a, p) == Find(b, p)
  }

  /** `record_hash`. */
  function RecordHash(content: seq<byte>, hash: Hash): string { "sha256=" + Base64Url.Encode(hash(content)) }

  /** The table of the files in a wheel. */
  function MemberRows(members: seq<Member>, hash: Hash): seq<RecordEntry> {
    if members == [] then []
    else [RecordEntry(members[0].name, RecordHash(members[0].content, hash), |members[0].content|)] +
         MemberRows(members[1..], hash)
  }

  /** Equal hash texts are texts of equal digests. */
  lemma RecordHashDetermines(a: seq<byte>, b: seq<byte>, hash: Hash)
    requires RecordHash(a, hash) == RecordHash(b, hash)
    ensures hash(a) == hash(b)
  {
    var x, y := Base64Url.Encode(hash(a)), Base64Url.Encode(hash(b));
    assert RecordHash(a, hash)[7..] == x && RecordHash(b, hash)[7..] == y;
    Base64Url.EncodeIsInjective(hash(a), hash(b));
  }

  /** The RECORD file of a wheel: its first member of that name. */
  function RecordMember(members: seq<Member>): Option<seq<byte>> {
    if members == [] then None
    else if EndsWith(members[0].name, RECORD_SUFFIX) then Some(members[0].content)
    else RecordMember(members[1..])
  }

  // `find(|(name, _)| name.ends_with(".dist-info/RECORD"))`.
  method FindRecord(members: seq<Member>) returns (r: Option<seq<byte>>)
    ensures r == RecordMember(members)
  {
    for k := 0 to |members|
      invariant RecordMember(members) == RecordMember(members[k..])
    {
      assert members[k..][0] == members[k] && members[k..][1..] == members[k + 1..];
      if EndsWith(members[k].name, ".dist-info/RECORD") { return Some(members[k].content); }
    }
    return None;
  }

  ghost predicate ClosedFiles(members: seq<Member>, installed: seq<byte>, hash: Hash, absolute: Absolute) {
    && RecordMember(members).Some?
    && RecordOf(RecordMember(members).value, absolute).Some?
    && RecordOf(installed, absolute).Some?
    && (var w := RecordOf(RecordMember(members).value, absolute).value;
        var i := RecordOf(installed, absolute).value;
        w != [] && i != [] && SameMap(MemberRows(members, hash), w) && SameMap(i, w))
  }

  /** The wheel is an admitted archive, both RECORD files are well formed and not empty, and members, RECORD and
      installed RECORD are one map. */
  ghost predicate Closed(pair: WheelPair, hash: Hash, absolute: Absolute) {
    && pair.wheel.Some?
    && ZipAdmitted(pair.wheel.value)
    && ClosedFiles(MembersOf(pair.wheel.value), pair.installed, hash, absolute)
  }

  // ----- the cross-checks -----

  function FindMember(members: seq<Member>, name: string): Option<Member> {
    if members == [] then None
    else if members[0].name == name then Some(members[0])
    else FindMember(members[1..], name)
  }

  lemma {:induction false} MemberRow(members: seq<Member>, name: string, hash: Hash)
    ensures FindMember(members, name).None? <==> Find(MemberRows(members, hash), name).None?
    ensures FindMember(members, name).Some? ==> var m := FindMember(members, name).value;
      Find(MemberRows(members, hash), name) == Some((RecordHash(m.content, hash), |m.content|))
  {
    hide RecordHash;
    if members != [] {
      MemberRow(members[1..], name, hash);
      assert MemberRows(members, hash)[1..] == MemberRows(members[1..], hash);
    }
  }

  lemma {:induction false} FoundIff(rows: seq<RecordEntry>, path: string)
    ensures Find(rows, path).Some? <==> exists row :: row in rows && row.path == path
  {
    if rows != [] {
      FoundIff(rows[1..], path);
      assert forall row :: row in rows <==> row == rows[0] || row in rows[1..];
    }
  }

  lemma {:induction false} MemberFoundIff(members: seq<Member>, name: string)
    ensures FindMember(members, name).Some? <==> exists m :: m in members && m.name == name
  {
    if members != [] {
      MemberFoundIff(members[1..], name);
      assert forall m :: m in members <==> m == members[0] || m in members[1..];
    }
  }

  lemma {:induction false} RowIsFound(rows: seq<RecordEntry>, k: nat)
    requires k < |rows| && FoldedDistinct(Paths(rows))
    ensures Find(rows, rows[k].path) == Some((rows[k].hash, rows[k].size))
  {
    hide Fold;
    assert forall i | 0 <= i < |rows| :: Paths(rows)[i] == rows[i].path;
    if k > 0 {
      assert Fold(Paths(rows)[0]) != Fold(Paths(rows)[k]);
      assert Paths(rows[1..]) == Paths(rows)[1..];
      RowIsFound(rows[1..], k - 1);
    }
  }

  // Row k of the wheel RECORD agrees with the members and with the installed RECORD.
  predicate RowAgrees(members: seq<RecordEntry>, wheel: seq<RecordEntry>, installed: seq<RecordEntry>, k: nat)
    requires k < |wheel|
  {
    var row := wheel[k];
    IsRecordPath(row.path) ||
    (Find(members, row.path) == Some((row.hash, row.size)) && Find(installed, row.path) == Some((row.hash, row.size)))
  }

  // Every path of the table is a path of the wheel RECORD.
  predicate Covered(rows: seq<RecordEntry>, wheel: seq<RecordEntry>) {
    forall row | row in rows :: IsRecordPath(row.path) || Find(wheel, row.path).Some?
  }

  lemma AgreementIsSameMap(members: seq<RecordEntry>, wheel: seq<RecordEntry>, installed: seq<RecordEntry>)
    requires FoldedDistinct(Paths(wheel))
    ensures SameMap(members, wheel) && SameMap(installed, wheel) <==>
            (forall k | 0 <= k < |wheel| :: RowAgrees(members, wheel, installed, k)) &&
            Covered(installed, wheel) && Covered(members, wheel)
  {
    hide FoldedDistinct, IsRecordPath;
    forall k | 0 <= k < |wheel|
      ensures Find(wheel, wheel[k].path) == Some((wheel[k].hash, wheel[k].size))
    {
      RowIsFound(wheel, k);
    }
    if SameMap(members, wheel) && SameMap(installed, wheel) {
      SameMapCovers(members, wheel);
      SameMapCovers(installed, wheel);
    } else if (forall k | 0 <= k < |wheel| :: RowAgrees(members, wheel, installed, k)) &&
              Covered(installed, wheel) && Covered(members, wheel) {
      forall p: string | !IsRecordPath(p)
        ensures Find(members, p) == Find(wheel, p) == Find(installed, p)
      {
        FoundIff(wheel, p);
        FoundIff(members, p);
        FoundIff(installed, p);
        if Find(wheel, p).Some? {
          var row :| row in wheel && row.path == p;
          var k :| 0 <= k < |wheel| && wheel[k] == row;
          assert RowAgrees(members, wheel, installed, k);
        }
      }
    }
  }

  lemma SameMapCovers(rows: seq<RecordEntry>, wheel: seq<RecordEntry>)
    requires SameMap(rows, wheel)
    ensures Covered(rows, wheel)
  {
    hide IsRecordPath;
    forall row | row in rows
      ensures IsRecordPath(row.path) || Find(wheel, row.path).Some?
    {
      FoundIff(rows, row.path);
    }
  }

  lemma {:induction false} MembersCovered(members: seq<Member>, wheel: seq<RecordEntry>, hash: Hash)
    ensures Covered(MemberRows(members, hash), wheel) <==>
            forall m | m in members :: IsRecordPath(m.name) || Find(wheel, m.name).Some?
  {
    hide IsRecordPath, RecordHash;
    if members != [] {
      MembersCovered(members[1..], wheel, hash);
      var rows := MemberRows(members, hash);
      assert rows[1..] == MemberRows(members[1..], hash);
      assert forall row :: row in rows <==> row == rows[0] || row in rows[1..];
      assert forall m :: m in members <==> m == members[0] || m in members[1..];
    }
  }

  // The paths that all three loops pass over.
  method IsExempt(path: string) returns (exempt: bool)
    ensures exempt <==> IsRecordPath(path)
  {
    exempt := EndsWith(path, "/RECORD") || path == "RECORD";
  }

  // The checks of one row of the wheel RECORD.
  method CheckRow(members: seq<Member>, row: RecordEntry, installed: seq<RecordEntry>, hash: Hash) returns (ok: bool)
    ensures ok <==> IsRecordPath(row.path) ||
                    (Find(MemberRows(members, hash), row.path) == Some((row.hash, row.size)) &&
                     Find(installed, row.path) == Some((row.hash, row.size)))
  {
    var exempt := IsExempt(row.path);
    if exempt { return true; }
    hide MemberRows, Find, FindMember, IsRecordPath, EndsWith, Base64Url.Encode;
    var member := FindMember(members, row.path);
    MemberRow(members, row.path, hash);
    if member.None? { return false; }
    if |member.value.content| != row.size { return false; }
    var digest := Base64Url.UrlsafeB64Nopad(hash(member.value.content));
    if row.hash != "sha256=" + digest { return false; }
    var other := Find(installed, row.path);
    if other.None? { return false; }
    if other.value.0 != row.hash || other.value.1 != row.size { return false; }
    return true;
  }

  /** The loops over the rows of the wheel RECORD, the rows of the installed RECORD and the members. */
  method CrossCheck(members: seq<Member>, wheel: seq<RecordEntry>, installed: seq<RecordEntry>, hash: Hash)
    returns (ok: bool)
    requires FoldedDistinct(Paths(wheel))
    ensures ok <==> SameMap(MemberRows(members, hash), wheel) && SameMap(installed, wheel)
  {
    hide Fold, IsRecordPath, FoldedSet, RecordHash, SameMap;
    ghost var rows := MemberRows(members, hash);
    AgreementIsSameMap(rows, wheel, installed);
    MembersCovered(members, wheel, hash);
    var seen: set<string> := {};
    EmptyDistinct();
    assert Paths(wheel[..0]) == [];
    for k := 0 to |wheel|
      invariant seen == FoldedSet(Paths(wheel[..k]))
      invariant forall j | 0 <= j < k :: RowAgrees(rows, wheel, installed, j)
    {
      var row := wheel[k];
      var folded := ToAsciiLowercase(row.path);
      assert wheel[..k + 1] == wheel[..k] + [row];
      SeenPaths(wheel, k);
      // The paths of a parsed RECORD are distinct, so this collision check cannot fail.
      assert folded !in seen;
      seen := seen + {folded};
      var agrees := CheckRow(members, row, installed, hash);
      assert agrees <==> RowAgrees(rows, wheel, installed, k);
      if !agrees { return false; }
    }
    for k := 0 to |installed|
      invariant forall j | 0 <= j < k :: IsRecordPath(installed[j].path) || Find(wheel, installed[j].path).Some?
    {
      assert installed[k] in installed;
      var exempt := IsExempt(installed[k].path);
      if !exempt && Find(wheel, installed[k].path).None? { return false; }
    }
    for k := 0 to |members|
      invariant forall j | 0 <= j < k :: IsRecordPath(members[j].name) || Find(wheel, members[j].name).Some?
    {
      assert members[k] in members;
      var exempt := IsExempt(members[k].name);
      if !exempt && Find(wheel, members[k].name).None? { return false; }
    }
    return true;
  }

  lemma SeenPaths(wheel: seq<RecordEntry>, k: nat)
    requires k < |wheel| && FoldedDistinct(Paths(wheel))
    ensures FoldedSet(Paths(wheel[..k + 1])) == FoldedSet(Paths(wheel[..k])) + {Fold(wheel[k].path)}
    ensures Fold(wheel[k].path) !in FoldedSet(Paths(wheel[..k]))
  {
    hide FoldedDistinct, FoldedSet, Fold;
    assert Paths(wheel[..k + 1]) == Paths(wheel[..k]) + [wheel[k].path];
    assert Paths(wheel) == Paths(wheel[..k + 1]) + Paths(wheel[k + 1..]);
    PrefixDistinct(Paths(wheel[..k + 1]), Paths(wheel[k + 1..]));
    AppendDistinct(Paths(wheel[..k]), wheel[k].path);
  }

  lemma RecordIsDistinct(bytes: seq<byte>, absolute: Absolute)
    ensures RecordOf(bytes, absolute).Some? ==> FoldedDistinct(Paths(RecordOf(bytes, absolute).value))
  {
    hide FoldedDistinct;
  }
}
