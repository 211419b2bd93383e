/** The EWBTREE1 archive of a Git execution tree: its frames, `write_tree_archive` and `parse_tree_archive`. */
module TreeArchive {
  import opened Wrappers
  import opened Bytes
  import Text
  import Utf8

  // A file of the tree: its relative name and its bytes.
  datatype Entry = Entry(name: string, content: seq<byte>)

  datatype TreeIdentity = TreeIdentity(sha256: Digest, fileCount: nat, byteLength: nat)

  const MAGIC: seq<byte> := [0x45, 0x57, 0x42, 0x54, 0x52, 0x45, 0x45, 0x31, 0x00]   // "EWBTREE1\0"
  const MAX_NAME := 16 * 1024

  // ----- names -----

  /** The components of a name. */
  function Split(name: string): (parts: seq<string>)
    ensures parts != []
  {
    Text.SplitOn(name, '/')
  }

  function Join(parts: seq<string>): string {
    Text.JoinWith(parts, '/')
  }

  predicate SafeComponent(part: string) {
    part != [] && part != "." && part != ".."
  }

  /** `validate_relative_tree_path`. */
  predicate SafePath(name: string) {
    name != [] && '\\' !in name && name[0] != '/' && ':' !in name &&
    (forall part | part in Split(name) :: SafeComponent(part)) && Split(name)[0] != ".git"
  }

  predicate ValidName(name: string) {
    SafePath(name) && |Utf8.Encode(name)| <= MAX_NAME
  }

  predicate NameLess(a: string, b: string) {
    LexLess(Utf8.Encode(a), Utf8.Encode(b))
  }

  lemma EncodingIsInjective(a: string, b: string)
    requires Utf8.Encode(a) == Utf8.Encode(b)
    ensures a == b
  {
    Utf8.DecodeEncode(a);
    Utf8.DecodeEncode(b);
  }

  // ----- frames -----

  /** Name length, name, content length, content; the lengths as `as u32` and `u64` write them. */
  function Frame(e: Entry): seq<byte> {
    ToLittleEndian(|Utf8.Encode(e.name)|, 4) + Utf8.Encode(e.name) + ToLittleEndian(|e.content|, 8) + e.content
  }

  function Frames(es: seq<Entry>): seq<byte> {
    if es == [] then [] else Frame(es[0]) + Frames(es[1..])
  }

  function Archive(es: seq<Entry>): seq<byte> {
    MAGIC + Frames(es)
  }

  function TotalBytes(es: seq<Entry>): nat {
    if es == [] then 0 else |es[0].content| + TotalBytes(es[1..])
  }

  function IdentityOf(hash: Hash, es: seq<Entry>): TreeIdentity {
    TreeIdentity(hash(Frames(es)), |es|, TotalBytes(es))
  }

  /** Valid names in strictly increasing byte order, and lengths that a u64 holds. */
  ghost predicate Canonical(es: seq<Entry>) {
    && (forall e | e in es :: ValidName(e.name) && |e.content| <= U64_MAX)
    && (forall i, j | 0 <= i < j < |es| :: NameLess(es[i].name, es[j].name))
  }

  // ----- the parser -----

  /** The frame at the start of `b`, after a frame named `previous`, and its length. */
  function ParseFrame(b: seq<byte>, previous: Option<seq<byte>>): (r: Option<(Entry, nat)>)
    ensures r.Some? ==> 12 <= r.value.1 <= |b|
  {
    if |b| < 4 then None
    else
      var n := FromLittleEndian(b[..4]);
      if n == 0 || n > MAX_NAME || |b| < 4 + n then None
      else
        var nameBytes := b[4..4 + n];
        if previous.Some? && !LexLess(previous.value, nameBytes) then None
        else
          match Utf8.Decode(nameBytes)
          case None => None
          case Some(name) =>
            if !SafePath(name) || |b| < 4 + n + 8 then None
            else
              var length := FromLittleEndian(b[4 + n..4 + n + 8]);
              if |b| < 4 + n + 8 + length then None
              else Some((Entry(name, b[4 + n + 8..4 + n + 8 + length]), 4 + n + 8 + length))
  }

  function ParseFrames(b: seq<byte>, previous: Option<seq<byte>>): Option<seq<Entry>> {
    if b == [] then Some([])
    else
      match ParseFrame(b, previous)
      case None => None
      case Some((e, n)) =>
        match ParseFrames(b[n..], Some(Utf8.Encode(e.name)))
        case None => None
        case Some(rest) => Some([e] + rest)
  }

  /** What a parser sees in an archive; None if it rejects it. */
  function Parse(bytes: seq<byte>): Option<seq<Entry>> {
    if MAGIC <= bytes then ParseFrames(bytes[|MAGIC|..], None) else None
  }

  predicate Follows(previous: Option<seq<byte>>, e: Entry) {
    previous.None? || LexLess(previous.value, Utf8.Encode(e.name))
  }

  lemma ParseFrameEncodes(b: seq<byte>, previous: Option<seq<byte>>)
    requires ParseFrame(b, previous).Some?
    ensures var (e, n) := ParseFrame(b, previous).value;
      b[..n] == Frame(e) && ValidName(e.name) && |e.content| <= U64_MAX && Follows(previous, e)
  {
    Pow256Values();
    hide FromLittleEndian, ToLittleEndian, Utf8.Encode, Utf8.Decode, LexLess, SafePath, Pow256;
    var n := FromLittleEndian(b[..4]);
    var nameBytes := b[4..4 + n];
    var lengthBytes := b[4 + n..4 + n + 8];
    var content := b[4 + n + 8..4 + n + 8 + FromLittleEndian(lengthBytes)];
    LittleEndianEncodes(b[..4]);
    LittleEndianEncodes(lengthBytes);
    Utf8.EncodeDecode(nameBytes);
    assert b[..4 + n + 8 + |content|] == b[..4] + nameBytes + lengthBytes + content;
  }

  // The lengths of the entry fit their fields, valid or not.
  predicate Framable(e: Entry) {
    |Utf8.Encode(e.name)| < 0x1_0000_0000 && |e.content| <= U64_MAX
  }

  // The fields at the start of a frame, read back.
  lemma CutFrame(e: Entry, x: seq<byte>)
    requires Framable(e)
    ensures var b, n := Frame(e) + x, |Utf8.Encode(e.name)|;
      && |b| >= 12 + n + |e.content|
      && FromLittleEndian(b[..4]) == n && b[4..4 + n] == Utf8.Encode(e.name)
      && FromLittleEndian(b[4 + n..12 + n]) == |e.content| && b[12 + n..12 + n + |e.content|] == e.content
      && b[12 + n + |e.content|..] == x
  {
    Pow256Values();
    hide Utf8.Encode, ToLittleEndian, FromLittleEndian, Pow256;
    var name := Utf8.Encode(e.name);
    LittleEndianDecodes(|name|, 4);
    LittleEndianDecodes(|e.content|, 8);
    CutParts(ToLittleEndian(|name|, 4), name, ToLittleEndian(|e.content|, 8), e.content, x);
  }

  lemma CutParts(l: seq<byte>, name: seq<byte>, m: seq<byte>, content: seq<byte>, x: seq<byte>)
    requires |l| == 4 && |m| == 8
    ensures var b, n := l + name + m + content + x, |name|;
      && |b| >= 12 + n + |content|
      && b[..4] == l && b[4..4 + n] == name && b[4 + n..12 + n] == m && b[12 + n..12 + n + |content|] == content
      && b[12 + n + |content|..] == x
  {
  }

  // What the parser makes of bytes with these fields.
  lemma FieldsParse(b: seq<byte>, e: Entry, previous: Option<seq<byte>>, n: nat)
    requires 0 < n <= MAX_NAME && SafePath(e.name) && |b| >= 12 + n + |e.content|
    requires FromLittleEndian(b[..4]) == n && FromLittleEndian(b[4 + n..12 + n]) == |e.content|
    requires Utf8.Decode(b[4..4 + n]) == Some(e.name) && b[12 + n..12 + n + |e.content|] == e.content
    requires previous.None? || LexLess(previous.value, b[4..4 + n])
    ensures ParseFrame(b, previous) == Some((e, 12 + n + |e.content|))
  {
    hide FromLittleEndian, Utf8.Decode, LexLess, SafePath;
  }

  lemma ValidNameSize(name: string)
    requires ValidName(name)
    ensures 0 < |Utf8.Encode(name)| <= MAX_NAME && SafePath(name)
  {
    assert |Utf8.EncodeChar(name[0])| >= 1;
  }

  lemma FrameParses(e: Entry, rest: seq<byte>, previous: Option<seq<byte>>)
    requires ValidName(e.name) && |e.content| <= U64_MAX && Follows(previous, e)
    ensures ParseFrame(Frame(e) + rest, previous) == Some((e, |Frame(e)|))
  {
    ValidNameSize(e.name);
    assert Framable(e);
    hide ParseFrame, Frame, Framable, ValidName, FromLittleEndian, Utf8.Encode, Utf8.Decode, LexLess, SafePath;
    Utf8.DecodeEncode(e.name);
    CutFrame(e, rest);
    FrameSize(e);
    FieldsParse(Frame(e) + rest, e, previous, |Utf8.Encode(e.name)|);
  }

  lemma FrameSize(e: Entry)
    ensures |Frame(e)| == 12 + |Utf8.Encode(e.name)| + |e.content|
  {
    hide Utf8.Encode;
  }

  lemma CanonicalTail(es: seq<Entry>)
    requires Canonical(es) && es != []
    ensures Canonical(es[1..]) && (es[1..] != [] ==> Follows(Some(Utf8.Encode(es[0].name)), es[1..][0]))
  {
    assert forall e | e in es[1..] :: e in es;
    assert forall i | 0 <= i < |es| - 1 :: es[1..][i] == es[i + 1];
  }

  lemma CanonicalPrepend(e: Entry, es: seq<Entry>)
    requires ValidName(e.name) && |e.content| <= U64_MAX && Canonical(es)
    requires es != [] ==> NameLess(e.name, es[0].name)
    ensures Canonical([e] + es)
  {
    var all := [e] + es;
    forall i, j | 0 <= i < j < |all|
      ensures NameLess(all[i].name, all[j].name)
    {
      if i == 0 && j > 1 {
        assert NameLess(es[0].name, es[j - 1].name);
        LexTransitive(Utf8.Encode(e.name), Utf8.Encode(es[0].name), Utf8.Encode(es[j - 1].name));
      } else if i > 0 {
        assert NameLess(es[i - 1].name, es[j - 1].name);
      }
    }
  }

  lemma {:induction false} ParsedFramesEncode(b: seq<byte>, previous: Option<seq<byte>>)
    requires ParseFrames(b, previous).Some?
    ensures var es := ParseFrames(b, previous).value;
      b == Frames(es) && Canonical(es) && (es != [] ==> Follows(previous, es[0]))
    decreases |b|
  {
    if b != [] {
      ParseFrameEncodes(b, previous);
      var (e, n) := ParseFrame(b, previous).value;
      ParsedFramesEncode(b[n..], Some(Utf8.Encode(e.name)));
      var rest := ParseFrames(b[n..], Some(Utf8.Encode(e.name))).value;
      CanonicalPrepend(e, rest);
      assert ([e] + rest)[1..] == rest && b == b[..n] + b[n..];
    }
  }

  lemma {:induction false} CanonicalFramesParse(es: seq<Entry>, previous: Option<seq<byte>>)
    requires Canonical(es) && (es != [] ==> Follows(previous, es[0]))
    ensures ParseFrames(Frames(es), previous) == Some(es)
  {
    if es != [] {
      var e, rest := es[0], es[1..];
      assert e in es;
      CanonicalTail(es);
      hide Canonical, ParseFrame, Frame, Follows, ValidName;
      FrameParses(e, Frames(rest), previous);
      FrameSize(e);
      CanonicalFramesParse(rest, Some(Utf8.Encode(e.name)));
      assert Frames(es)[|Frame(e)|..] == Frames(rest);
      assert es == [e] + rest && |Frame(e)| > 0;
    }
  }

  lemma EmptyFollows(es: seq<Entry>)
    ensures es != [] ==> Follows(None, es[0])
  {
  }

  /** Archives and canonical lists of entries are in bijection: a parser accepts a byte string and sees `es` exactly
      when `es` is canonical and the byte string is its encoding. */
  lemma ParseIsInverse(bytes: seq<byte>, es: seq<Entry>)
    ensures Parse(bytes) == Some(es) <==> Canonical(es) && bytes == Archive(es)
  {
    hide ParseFrames, Frames, Canonical;
    EmptyFollows(es);
    if Parse(bytes) == Some(es) {
      ParsedFramesEncode(bytes[|MAGIC|..], None);
      assert bytes == MAGIC + bytes[|MAGIC|..];
    }
    if Canonical(es) && bytes == Archive(es) {
      CanonicalFramesParse(es, None);
      assert bytes[|MAGIC|..] == Frames(es);
    }
  }
}
