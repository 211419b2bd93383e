/** The loops that write and read an EWBTREE1 archive: `write_tree_archive`, `parse_tree_archive` and
    `take_archive_bytes`. A SHA-256 hasher is the sequence of bytes it absorbed. */
module TreeArchiveCode {
  import opened Wrappers
  import opened Bytes
  import opened PathResolution
  import opened TreeArchive
  import Text
  import Utf8

  // ----- `files.sort_by(bytes of the name)` -----

  function Insert(e: Entry, es: seq<Entry>): seq<Entry> {
    if es == [] || !NameLess(es[0].name, e.name) then [e] + es else [es[0]] + Insert(e, es[1..])
  }

  /** A stable sort by the bytes of the name. */
  function Sort(es: seq<Entry>): seq<Entry> {
    if es == [] then [] else Insert(es[0], Sort(es[1..]))
  }

  predicate Ordered(es: seq<Entry>) {
    forall i, j | 0 <= i < j < |es| :: !NameLess(es[j].name, es[i].name)
  }

  ghost predicate DistinctNames(es: seq<Entry>) {
    forall i, j | 0 <= i < j < |es| :: es[i].name != es[j].name
  }

  lemma {:induction false} InsertKeeps(e: Entry, es: seq<Entry>)
    requires Ordered(es)
    ensures Ordered(Insert(e, es)) && multiset(Insert(e, es)) == multiset{e} + multiset(es)
  {
    hide LexLess, Utf8.Encode;
    if es == [] || !NameLess(es[0].name, e.name) {
      forall j | 0 <= j < |es|
        ensures !NameLess(es[j].name, e.name)
      {
        if NameLess(es[j].name, e.name) { NotLessTransitive(es[0].name, es[j].name, e.name); }
      }
    } else {
      InsertKeeps(e, es[1..]);
      var rest := Insert(e, es[1..]);
      forall j | 0 <= j < |rest|
        ensures !NameLess(rest[j].name, es[0].name)
      {
        assert rest[j] in multiset(rest);
        if rest[j] == e {
          LexAsymmetric(Utf8.Encode(es[0].name), Utf8.Encode(e.name));
        } else {
          assert rest[j] in es[1..];
        }
      }
      assert es == [es[0]] + es[1..];
    }
  }

  lemma NotLessTransitive(a: string, b: string, c: string)
    requires NameLess(b, c) && !NameLess(b, a)
    ensures NameLess(a, c)
  {
    LexTotal(Utf8.Encode(a), Utf8.Encode(b));
    if NameLess(a, b) { LexTransitive(Utf8.Encode(a), Utf8.Encode(b), Utf8.Encode(c)); }
  }

  lemma {:induction false} SortSorts(es: seq<Entry>)
    ensures Ordered(Sort(es)) && multiset(Sort(es)) == multiset(es) && |Sort(es)| == |es|
  {
    if es != [] {
      SortSorts(es[1..]);
      InsertKeeps(es[0], Sort(es[1..]));
      assert es == [es[0]] + es[1..];
    }
    assert |multiset(Sort(es))| == |multiset(es)|;
  }

  /** An ordered list of valid entries is canonical exactly when its names are distinct. */
  lemma OrderedIsCanonical(es: seq<Entry>)
    requires Ordered(es) && forall e | e in es :: ValidName(e.name) && |e.content| <= U64_MAX
    ensures Canonical(es) <==> DistinctNames(es)
  {
    forall i, j | 0 <= i < j < |es|
      ensures NameLess(es[i].name, es[j].name) <==> es[i].name != es[j].name
    {
      LexTotal(Utf8.Encode(es[i].name), Utf8.Encode(es[j].name));
      if Utf8.Encode(es[i].name) == Utf8.Encode(es[j].name) { EncodingIsInjective(es[i].name, es[j].name); }
      LexIrreflexive(Utf8.Encode(es[i].name));
    }
  }

  lemma SameHead(a: seq<Entry>, b: seq<Entry>)
    requires Canonical(a) && Canonical(b) && multiset(a) == multiset(b) && a != [] && b != []
    ensures a[0] == b[0]
  {
    hide ValidName, LexLess, Utf8.Encode;
    assert a[0] in multiset(b) && b[0] in multiset(a);
    if a[0] != b[0] {
      var i :| 0 <= i < |b| && b[i] == a[0];
      var j :| 0 <= j < |a| && a[j] == b[0];
      assert NameLess(b[0].name, b[i].name) && NameLess(a[0].name, a[j].name);
      LexAsymmetric(Utf8.Encode(a[0].name), Utf8.Encode(b[0].name));
    }
  }

  lemma TailMultiset(a: seq<Entry>)
    requires a != []
    ensures multiset(a[1..]) == multiset(a) - multiset{a[0]}
  {
    assert a == [a[0]] + a[1..];
  }

  lemma EmptyMultiset(a: seq<Entry>, b: seq<Entry>)
    requires multiset(a) == multiset(b)
    ensures a == [] <==> b == []
  {
    assert |multiset(a)| == |a| && |multiset(b)| == |b|;
  }

  /** Two canonical lists with the same entries are the same list. */
  lemma {:induction false} CanonicalIsUnique(a: seq<Entry>, b: seq<Entry>)
    requires Canonical(a) && Canonical(b) && multiset(a) == multiset(b)
    ensures a == b
  {
    hide Canonical;
    EmptyMultiset(a, b);
    if a != [] {
      SameHead(a, b);
      CanonicalTail(a);
      CanonicalTail(b);
      TailMultiset(a);
      TailMultiset(b);
      CanonicalIsUnique(a[1..], b[1..]);
      assert a == [a[0]] + a[1..] && b == [b[0]] + b[1..];
    }
  }

  // ----- the writer -----

  predicate Writable(e: Entry) {
    ValidName(e.name) && |e.content| <= U64_MAX
  }

  datatype WriteError = UnsafePath | NameTooLong | ByteCountOverflow

  lemma {:induction false} FramesAppend(es: seq<Entry>, e: Entry)
    ensures Frames(es + [e]) == Frames(es) + Frame(e)
    ensures TotalBytes(es + [e]) == TotalBytes(es) + |e.content|
  {
    if es == [] {
      assert [e][1..] == [];
    } else {
      FramesAppend(es[1..], e);
      assert (es + [e])[1..] == es[1..] + [e];
    }
  }

  lemma {:induction false} TotalGrows(es: seq<Entry>, i: nat)
    requires i <= |es|
    ensures TotalBytes(es[..i]) <= TotalBytes(es)
    ensures forall e | e in es :: |e.content| <= TotalBytes(es)
  {
    if es != [] {
      TotalGrows(es[1..], if i == 0 then 0 else i - 1);
      if i > 0 { assert es[..i][1..] == es[1..][..i - 1]; }
    }
  }

  // What the archive and the byte count gain with file `i`.
  lemma WriteNext(files: seq<Entry>, i: nat)
    requires i < |files|
    ensures MAGIC + Frames(files[..i]) + Frame(files[i]) == MAGIC + Frames(files[..i + 1])
    ensures Frames(files[..i]) + Frame(files[i]) == Frames(files[..i + 1])
    ensures TotalBytes(files[..i + 1]) == TotalBytes(files[..i]) + |files[i].content| <= TotalBytes(files)
  {
    hide Frame, Frames;
    assert files[..i + 1] == files[..i] + [files[i]];
    FramesAppend(files[..i], files[i]);
    TotalGrows(files, i + 1);
    assert MAGIC + Frames(files[..i]) + Frame(files[i]) == MAGIC + (Frames(files[..i]) + Frame(files[i]));
  }

  // The test of the components in `validate_relative_tree_path` and in `collect_tree_files`.
  method ComponentsAreSafe(parts: seq<string>) returns (ok: bool)
    ensures ok <==> forall part | part in parts :: SafeComponent(part)
  {
    for k := 0 to |parts|
      invariant forall j | 0 <= j < k :: SafeComponent(parts[j])
    {
      assert parts[k] in parts;
      if parts[k] == "" || parts[k] == "." || parts[k] == ".." { return false; }
    }
    return true;
  }

  /** `validate_relative_tree_path`. */
  method ValidateRelativeTreePath(value: string) returns (ok: bool)
    ensures ok <==> SafePath(value)
    ensures ok <==> IsOwnPlace(value)
  {
    SafePathIff(value);
    hide IsOwnPlace;
    if value == "" || '\\' in value || value[0] == '/' || ':' in value { return false; }
    var parts := Text.SplitOn(value, '/');
    ok := ComponentsAreSafe(parts);
    if parts[0] == ".git" { ok := false; }
  }

  /** `write_tree_archive` on the files that `collect_tree_files` found: it accepts exactly when every name leads to its
      own place below a root and has at most 16384 bytes and the byte count fits a u64, and then it writes the archive
      of the sorted files. */
  method WriteTreeArchive(hash: Hash, collected: seq<Entry>) returns (r: Result<(seq<byte>, TreeIdentity), WriteError>)
    ensures r.Ok? <==> (forall e | e in collected :: IsOwnPlace(e.name) && |Utf8.Encode(e.name)| <= 16384) &&
                       TotalBytes(Sort(collected)) <= U64_MAX
    ensures r.Ok? ==> r.value == (Archive(Sort(collected)), IdentityOf(hash, Sort(collected)))
  {
    hide SafePath, IsOwnPlace, Utf8.Encode, ToLittleEndian, Sort, Frames, LexLess, TotalBytes;
    NoFrames();
    var files := Sort(collected);
    SortSorts(collected);
    assert forall e :: e in collected <==> e in multiset(files);
    var output: seq<byte> := [0x45, 0x57, 0x42, 0x54, 0x52, 0x45, 0x45, 0x31, 0];
    var absorbed: seq<byte> := [];
    var total: u64 := 0;
    for i := 0 to |files|
      invariant output == MAGIC + Frames(files[..i]) && absorbed == Frames(files[..i])
      invariant total == TotalBytes(files[..i])
      invariant forall e | e in files[..i] :: IsOwnPlace(e.name) && |Utf8.Encode(e.name)| <= 16384
    {
      var e := files[i];
      assert e in files && files[..i + 1] == files[..i] + [e];
      var name := Utf8.Encode(e.name);
      var frame := ToLittleEndian(|name|, 4) + name + ToLittleEndian(|e.content|, 8) + e.content;
      WriteNext(files, i);
      var safe := ValidateRelativeTreePath(e.name);
      if !safe { return Err(UnsafePath); }
      if |name| > 16 * 1024 { return Err(NameTooLong); }
      output := output + frame;
      absorbed := absorbed + frame;
      if total + |e.content| > U64_MAX { return Err(ByteCountOverflow); }
      total := total + |e.content|;
    }
    assert files[..|files|] == files;
    return Ok((output, TreeIdentity(hash(absorbed), |files|, total)));
  }

  lemma FramePrefixFree(a: Entry, b: Entry, x: seq<byte>, y: seq<byte>)
    requires Framable(a) && Framable(b) && Frame(a) + x == Frame(b) + y
    ensures a == b && x == y
  {
    CutFrame(a, x);
    CutFrame(b, y);
    hide Frame, Utf8.Encode;
    assert |Utf8.Encode(a.name)| == |Utf8.Encode(b.name)|;
    EncodingIsInjective(a.name, b.name);
  }

  /** Frames whose lengths fit their fields can be cut in one way only. */
  lemma {:induction false} FramesInjective(a: seq<Entry>, b: seq<Entry>)
    requires (forall e | e in a :: Framable(e)) && (forall e | e in b :: Framable(e)) && Frames(a) == Frames(b)
    ensures a == b
  {
    hide Framable;
    assert forall e :: |Frame(e)| >= 12;
    if a != [] && b != [] {
      FramePrefixFree(a[0], b[0], Frames(a[1..]), Frames(b[1..]));
      FramesInjective(a[1..], b[1..]);
      assert a == [a[0]] + a[1..] && b == [b[0]] + b[1..];
    }
  }

  lemma {:induction false} OccursTwice(a: seq<Entry>, e: Entry) returns (i: nat, j: nat)
    requires multiset(a)[e] >= 2
    ensures i < j < |a| && a[i] == e && a[j] == e
  {
    assert a == [a[0]] + a[1..];
    if a[0] == e {
      assert e in multiset(a[1..]);
      var k :| 0 <= k < |a[1..]| && a[1..][k] == e;
      i, j := 0, k + 1;
    } else {
      i, j := OccursTwice(a[1..], e);
      i, j := i + 1, j + 1;
    }
  }

  lemma PermutationKeepsDistinct(a: seq<Entry>, b: seq<Entry>)
    requires multiset(a) == multiset(b) && DistinctNames(a)
    ensures DistinctNames(b)
  {
    forall i, j | 0 <= i < j < |b|
      ensures b[i].name != b[j].name
    {
      if b[i] == b[j] {
        assert b == b[..j] + [b[j]] + b[j + 1..] && b[i] in b[..j];
        assert multiset(b)[b[i]] >= 2;
        var k, l := OccursTwice(a, b[i]);
      } else {
        assert b[i] in multiset(a) && b[j] in multiset(a);
      }
    }
  }

  /** What the writer writes is parsed back to exactly its sorted files, precisely when their names are distinct. A
      directory walk yields equal names only where `replace('\\', "/")` maps two paths to one. */
  lemma WriterParserAgree(collected: seq<Entry>)
    requires (forall e | e in collected :: ValidName(e.name)) && TotalBytes(Sort(collected)) <= U64_MAX
    ensures Parse(Archive(Sort(collected))) == Some(Sort(collected)) <==> DistinctNames(collected)
    ensures DistinctNames(collected) <==> Parse(Archive(Sort(collected))).Some?
  {
    var files := Sort(collected);
    SortSorts(collected);
    TotalGrows(files, |files|);
    forall e | e in files
      ensures Writable(e)
    {
      assert e in multiset(files) && e in collected;
    }
    OrderedIsCanonical(files);
    if DistinctNames(collected) { PermutationKeepsDistinct(collected, files); }
    if DistinctNames(files) { PermutationKeepsDistinct(files, collected); }
    ParseIsInverse(Archive(files), files);
    var parsed := Parse(Archive(files));
    if parsed.Some? {
      ParseIsInverse(Archive(files), parsed.value);
      FramesInjective(files, parsed.value);
    }
  }

  // ----- the parser -----

  /** The `visit` callback over a whole list: a state threaded through calls that may fail. */
  function VisitAll<S>(visit: (S, Entry) -> Option<S>, s: S, es: seq<Entry>): Option<S> {
    if es == [] then Some(s)
    else
      match visit(s, es[0])
      case None => None
      case Some(s') => VisitAll(visit, s', es[1..])
  }

  lemma {:induction false} VisitConcat<S>(visit: (S, Entry) -> Option<S>, s: S, a: seq<Entry>, b: seq<Entry>)
    ensures VisitAll(visit, s, a + b) ==
      match VisitAll(visit, s, a) case None => None case Some(s') => VisitAll(visit, s', b)
  {
    if a == [] {
      assert a + b == b;
    } else if visit(s, a[0]).Some? {
      assert (a + b)[1..] == a[1..] + b;
      VisitConcat(visit, visit(s, a[0]).value, a[1..], b);
    }
  }

  function Prefixed(es: seq<Entry>, rest: Option<seq<Entry>>): Option<seq<Entry>> {
    match rest case None => None case Some(r) => Some(es + r)
  }

  /** `take_archive_bytes`: the next `length` bytes and the position after them. The end of the slice cannot overflow
      unnoticed: an end beyond a usize is an error as a truncated archive is. */
  method TakeArchiveBytes(bytes: seq<byte>, position: usize, length: usize) returns (r: Option<seq<byte>>, end: usize)
    requires position <= |bytes| < 0x1_0000_0000_0000_0000
    ensures r.Some? <==> position + length <= |bytes|
    ensures r.Some? ==> end == position + length && r.value == bytes[position..end]
  {
    end := position;
    if position + length > U64_MAX { return None, end; }
    if position + length > |bytes| { return None, end; }
    end := position + length;
    return Some(bytes[position..end]), end;
  }

  // One turn of the parser's loop, up to the hashing: the frame at `position` and the position after it.
  method ReadFrame(bytes: seq<byte>, position: usize, previous: Option<seq<byte>>)
    returns (r: Option<Entry>, end: usize)
    requires position < |bytes| < 0x1_0000_0000_0000_0000
    ensures r.Some? <==> ParseFrame(bytes[position..], previous).Some?
    ensures r.Some? ==>
      position < end <= |bytes| && ParseFrame(bytes[position..], previous) == Some((r.value, end - position))
  {
    hide SafePath, LexLess, Utf8.Decode, FromLittleEndian, Pow256;
    ghost var b := bytes[position..];
    var field: Option<seq<byte>>;
    field, end := TakeArchiveBytes(bytes, position, 4);
    if field.None? { return None, end; }
    assert field.value == b[..4];
    var nameLength: nat := FromLittleEndian(field.value);
    if nameLength == 0 || nameLength > 16 * 1024 { return None, end; }
    var nameBytes;
    nameBytes, end := TakeArchiveBytes(bytes, end, nameLength);
    if nameBytes.None? { return None, end; }
    assert nameBytes.value == b[4..4 + nameLength];
    if previous.Some? && !LexLess(previous.value, nameBytes.value) { return None, end; }
    var name := Utf8.Decode(nameBytes.value);
    if name.None? { return None, end; }
    var safe := ValidateRelativeTreePath(name.value);
    if !safe { return None, end; }
    field, end := TakeArchiveBytes(bytes, end, 8);
    if field.None? { return None, end; }
    assert field.value == b[4 + nameLength..4 + nameLength + 8];
    LittleEndianEncodes(field.value);
    Pow256Values();
    var length: usize := FromLittleEndian(field.value);
    var content;
    content, end := TakeArchiveBytes(bytes, end, length);
    if content.None? { return None, end; }
    assert content.value == b[4 + nameLength + 8..4 + nameLength + 8 + length];
    return Some(Entry(name.value, content.value)), end;
  }

  // The parser has seen `visited` and what it has yet to see starts at `position`.
  ghost predicate Seen(bytes: seq<byte>, visited: seq<Entry>, position: nat, previous: Option<seq<byte>>) {
    9 <= position <= |bytes| && bytes[9..position] == Frames(visited) &&
    Parse(bytes) == Prefixed(visited, ParseFrames(bytes[position..], previous))
  }

  lemma ParseNext(rest: seq<byte>, previous: Option<seq<byte>>, visited: seq<Entry>, e: Entry, n: nat)
    requires ParseFrame(rest, previous) == Some((e, n)) && n <= |rest|
    ensures Prefixed(visited, ParseFrames(rest, previous)) ==
            Prefixed(visited + [e], ParseFrames(rest[n..], Some(Utf8.Encode(e.name))))
    ensures rest[..n] == Frame(e)
  {
    ParseFrameEncodes(rest, previous);
    hide ParseFrame, Frame, Utf8.Encode;
    var tail := ParseFrames(rest[n..], Some(Utf8.Encode(e.name)));
    if tail.Some? { assert visited + ([e] + tail.value) == visited + [e] + tail.value; }
  }

  lemma SeeNext(bytes: seq<byte>, visited: seq<Entry>, position: nat, previous: Option<seq<byte>>, e: Entry, end: nat)
    requires Seen(bytes, visited, position, previous) && position < end <= |bytes|
    requires ParseFrame(bytes[position..], previous) == Some((e, end - position))
    ensures Seen(bytes, visited + [e], end, Some(Utf8.Encode(e.name)))
    ensures end - position >= 12 + |e.content|
  {
    hide ParseFrame, ParseFrames, Frames, Parse, Utf8.Encode, Prefixed, LexLess;
    var rest := bytes[position..];
    ParseNext(rest, previous, visited, e, end - position);
    assert |Frame(e)| >= 12 + |e.content|;
    hide Frame;
    FramesAppend(visited, e);
    assert rest[end - position..] == bytes[end..] && rest[..end - position] == bytes[position..end];
    assert bytes[9..end] == bytes[9..position] + bytes[position..end];
  }

  lemma SeenStart(bytes: seq<byte>)
    requires MAGIC <= bytes
    ensures Seen(bytes, [], 9, None)
  {
    assert forall r: seq<Entry> :: [] + r == r;
  }

  // A frame that does not parse ends the archive.
  lemma SeeNothing(bytes: seq<byte>, visited: seq<Entry>, position: nat, previous: Option<seq<byte>>)
    requires Seen(bytes, visited, position, previous) && position < |bytes|
    requires ParseFrame(bytes[position..], previous).None?
    ensures Parse(bytes).None?
  {
    hide ParseFrame, Parse, Frames;
  }

  // What is parsed starts with what was seen, and is that at the end.
  lemma SeenSoFar(bytes: seq<byte>, visited: seq<Entry>, position: nat, previous: Option<seq<byte>>)
    requires Seen(bytes, visited, position, previous)
    ensures Parse(bytes).Some? ==> exists rest: seq<Entry> :: Parse(bytes).value == visited + rest
    ensures position == |bytes| ==> Parse(bytes) == Some(visited) && bytes[9..] == Frames(visited)
  {
    var more := ParseFrames(bytes[position..], previous);
    assert bytes[|bytes|..] == [] && visited + [] == visited && bytes[9..|bytes|] == bytes[9..];
    hide Parse, Frames;
    if position < |bytes| { hide ParseFrames; }
    if Parse(bytes).Some? { assert Parse(bytes).value == visited + more.value; }
  }

  /** `parse_tree_archive` with any visitor: it accepts exactly when the bytes are an archive and every visit
      succeeds, and then it visited the entries in order and returns their identity. Neither counter overflows. */
  method ParseTreeArchive<S>(hash: Hash, bytes: seq<byte>, visit: (S, Entry) -> Option<S>, s0: S)
    returns (r: Option<TreeIdentity>, s: S)
    requires |bytes| < 0x1_0000_0000_0000_0000
    ensures r.Some? <==> Parse(bytes).Some? && VisitAll(visit, s0, Parse(bytes).value).Some?
    ensures r.Some? ==> r.value == IdentityOf(hash, Parse(bytes).value) && r.value.sha256 == hash(bytes[9..])
    ensures r.Some? ==> VisitAll(visit, s0, Parse(bytes).value) == Some(s)
  {
    s := s0;
    MagicStarts(bytes);
    if |bytes| < 9 || bytes[..9] != [0x45, 0x57, 0x42, 0x54, 0x52, 0x45, 0x45, 0x31, 0] { return None, s; }
    var position: usize := 9;
    var absorbed: seq<byte> := [];
    var count: u64, total: u64 := 0, 0;
    var previous: Option<seq<byte>> := None;
    ghost var visited: seq<Entry> := [];
    SeenStart(bytes);
    hide ParseFrame, Frame, Utf8.Encode, Seen, Parse, ParseFrames, Frames, LexLess, Prefixed, VisitAll;
    assert VisitAll(visit, s0, []) == Some(s0) by { VisitNothing(visit, s0); }
    assert Frames([]) == [] by { NoFrames(); }
    while position < |bytes|
      invariant Seen(bytes, visited, position, previous) && VisitAll(visit, s0, visited) == Some(s)
      invariant absorbed == Frames(visited) && total == TotalBytes(visited) && count == |visited|
      invariant total + count <= position
    {
      var e, end := ReadFrame(bytes, position, previous);
      if e.None? {
        SeeNothing(bytes, visited, position, previous);
        return None, s;
      }
      SeeNext(bytes, visited, position, previous, e.value, end);
      VisitNext(visit, s0, visited, s, e.value);
      FramesAppend(visited, e.value);
      absorbed := absorbed + Frame(e.value);
      total := total + |e.value.content|;
      count := count + 1;
      var visit' := visit(s, e.value);
      visited := visited + [e.value];
      if visit'.None? {
        SeenSoFar(bytes, visited, end, Some(Utf8.Encode(e.value.name)));
        return None, s;
      }
      s := visit'.value;
      previous := Some(Utf8.Encode(e.value.name));
      position := end;
    }
    SeenSoFar(bytes, visited, position, previous);
    return Some(TreeIdentity(hash(absorbed), count, total)), s;
  }

  lemma VisitNothing<S>(visit: (S, Entry) -> Option<S>, s0: S)
    ensures VisitAll(visit, s0, []) == Some(s0)
  {
  }

  lemma NoFrames()
    ensures Frames([]) == [] && TotalBytes([]) == 0
  {
  }

  lemma MagicStarts(bytes: seq<byte>)
    ensures !(MAGIC <= bytes) ==> Parse(bytes).None?
    ensures |MAGIC| == 9
  {
  }

  // A visit that fails fails the whole list, whatever follows.
  lemma VisitNext<S>(visit: (S, Entry) -> Option<S>, s0: S, visited: seq<Entry>, s: S, e: Entry)
    requires VisitAll(visit, s0, visited) == Some(s)
    ensures VisitAll(visit, s0, visited + [e]) == visit(s, e)
    ensures visit(s, e).None? ==> forall rest :: VisitAll(visit, s0, visited + [e] + rest).None?
  {
    VisitConcat(visit, s0, visited, [e]);
    forall rest: seq<Entry> | visit(s, e).None?
      ensures VisitAll(visit, s0, visited + [e] + rest).None?
    {
      VisitConcat(visit, s0, visited + [e], rest);
    }
  }
}
