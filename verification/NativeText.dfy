/** `extract_text_prefix`: the value after a prefix in native text output, and the byte range that holds it. The
    recorder (`native.rs`) and the validator (`run_validation.rs`) each have a copy of this loop. */
module NativeText {
  import opened Wrappers
  import opened Bytes
  import Text
  import Utf8

  // The value and the byte range from `start` up to `end`.
  datatype Found = Found(value: string, start: nat, end: nat)

  // ----- lines -----

  /** The length of the first line, its line feed included. */
  function LineLength(s: string): (n: nat)
    ensures n <= |s| && (s != [] ==> n > 0)
  {
    if s == [] then 0 else if s[0] == '\n' then 1 else 1 + LineLength(s[1..])
  }

  /** `str::split_inclusive('\n')`. */
  function Lines(s: string): seq<string>
    decreases |s|
  {
    if s == [] then [] else [s[..LineLength(s)]] + Lines(s[LineLength(s)..])
  }

  function Concat(lines: seq<string>): string {
    if lines == [] then [] else lines[0] + Concat(lines[1..])
  }

  /** `trim_end_matches(['\r', '\n'])`. */
  function Body(line: string): string {
    if line != [] && line[|line| - 1] in {'\r', '\n'} then Body(line[..|line| - 1]) else line
  }

  predicate Matches(line: string, prefix: string) { prefix <= Body(line) }

  /** Line `k` starts with the prefix and no line before it does. */
  predicate FirstMatch(lines: seq<string>, prefix: string, k: nat) {
    k < |lines| && Matches(lines[k], prefix) && forall j | 0 <= j < k :: !Matches(lines[j], prefix)
  }

  // A line feed can only end a line, and every line but the last ends with one.
  predicate IsLine(line: string) {
    line != [] && forall i | 0 <= i < |line| - 1 :: line[i] != '\n'
  }

  predicate EndsWithFeed(line: string) { line != [] && line[|line| - 1] == '\n' }

  lemma {:induction false} LineLengthIsFirst(s: string)
    requires s != []
    ensures IsLine(s[..LineLength(s)])
    ensures LineLength(s) < |s| ==> EndsWithFeed(s[..LineLength(s)])
  {
    if s[0] != '\n' && |s| > 1 {
      LineLengthIsFirst(s[1..]);
      assert s[..LineLength(s)] == [s[0]] + s[1..][..LineLength(s) - 1];
    }
  }

  lemma {:induction false} ConcatOfLines(s: string)
    ensures Concat(Lines(s)) == s
    decreases |s|
  {
    if s != [] {
      var n := LineLength(s);
      ConcatOfLines(s[n..]);
      hide LineLength;
      assert Lines(s)[1..] == Lines(s[n..]);
      assert s == s[..n] + s[n..];
    }
  }

  lemma {:induction false} LinesAreLines(s: string)
    ensures forall line | line in Lines(s) :: IsLine(line)
    ensures forall k | 0 <= k < |Lines(s)| - 1 :: EndsWithFeed(Lines(s)[k])
    decreases |s|
  {
    if s != [] {
      var n := LineLength(s);
      LineLengthIsFirst(s);
      LinesAreLines(s[n..]);
      hide LineLength, IsLine, EndsWithFeed;
      assert Lines(s)[1..] == Lines(s[n..]);
      if n == |s| {
        assert s[n..] == [];
      }
    }
  }

  /** The lines are the text cut after every line feed. */
  lemma LinesSplit(s: string)
    ensures Concat(Lines(s)) == s
    ensures forall line | line in Lines(s) :: IsLine(line)
    ensures forall k | 0 <= k < |Lines(s)| - 1 :: EndsWithFeed(Lines(s)[k])
  {
    ConcatOfLines(s);
    LinesAreLines(s);
  }

  lemma {:induction false} ConcatSplit(lines: seq<string>, k: nat)
    requires k < |lines|
    ensures Concat(lines) == Concat(lines[..k]) + lines[k] + Concat(lines[k + 1..])
  {
    if k == 0 {
      assert lines[..0] == [] && lines[1..] == lines[0 + 1..];
    } else {
      ConcatSplit(lines[1..], k - 1);
      assert lines[1..][..k - 1] == lines[..k][1..];
      assert lines[1..][k..] == lines[k + 1..];
    }
  }

  lemma {:induction false} ConcatSnoc(lines: seq<string>, line: string)
    ensures Concat(lines + [line]) == Concat(lines) + line
  {
    ConcatSplit(lines + [line], |lines|);
    assert (lines + [line])[..|lines|] == lines;
    assert (lines + [line])[|lines| + 1..] == [];
  }

  lemma {:induction false} BodyIsPrefix(line: string)
    ensures Body(line) <= line
    ensures IsLine(line) ==> '\n' !in Body(line)
    ensures forall c | c in line[|Body(line)|..] :: c == '\r' || c == '\n'
    ensures Body(line) != [] ==> Body(line)[|Body(line)| - 1] != '\r' && Body(line)[|Body(line)| - 1] != '\n'
  {
    if line != [] && line[|line| - 1] in {'\r', '\n'} {
      var front := line[..|line| - 1];
      BodyIsPrefix(front);
      assert line[|Body(front)|..] == front[|Body(front)|..] + [line[|line| - 1]];
      if IsLine(line) {
        assert '\n' !in front;
        assert forall c | c in Body(front) :: c in front;
      }
    } else if IsLine(line) {
      assert line[|line| - 1] != '\n';
    }
  }

  // ----- trimming -----

  lemma {:induction false} TrimStartIsSuffix(s: string)
    ensures |Text.TrimStart(s)| <= |s| && Text.TrimStart(s) == s[|s| - |Text.TrimStart(s)|..]
    ensures Text.TrimStart(s) == [] || !Text.IsWhitespace(Text.TrimStart(s)[0])
  {
    if s != [] && Text.IsWhitespace(s[0]) {
      TrimStartIsSuffix(s[1..]);
    }
  }

  lemma {:induction false} TrimEndIsPrefix(s: string)
    ensures Text.TrimEnd(s) <= s
    ensures Text.TrimEnd(s) == [] || !Text.IsWhitespace(Text.TrimEnd(s)[|Text.TrimEnd(s)| - 1])
  {
    if s != [] && Text.IsWhitespace(s[|s| - 1]) {
      TrimEndIsPrefix(s[..|s| - 1]);
    }
  }

  // ----- the extraction -----

  function Size(s: string): nat { |Utf8.Encode(s)| }

  /** The value in line `k`: what follows the prefix, trimmed, and where it is. */
  function InLine(lines: seq<string>, prefix: string, k: nat): Found
    requires k < |lines| && Matches(lines[k], prefix)
  {
    var rest := Body(lines[k])[|prefix|..];
    var start := Size(Concat(lines[..k]) + prefix + rest[..|rest| - Kept(rest)]);
    Found(Text.Trim(rest), start, start + Size(Text.Trim(rest)))
  }

  // How many characters of `s` trimming its start keeps.
  function Kept(s: string): (n: nat)
    ensures n <= |s|
  {
    TrimStartIsSuffix(s);
    |Text.TrimStart(s)|
  }

  lemma NewlineBytes(s: string)
    requires '\n' !in s
    ensures 0x0A !in Utf8.Encode(s)
  {
    if s != [] {
      NewlineBytes(s[1..]);
      assert s[0] != '\n';
      assert 0x0A !in Utf8.EncodeChar(s[0]);
    }
  }

  lemma SizeOfParts(a: string, b: string, c: string)
    ensures Utf8.Encode(a + b + c) == Utf8.Encode(a) + Utf8.Encode(b) + Utf8.Encode(c)
  {
    Utf8.EncodeConcat(a + b, c);
    Utf8.EncodeConcat(a, b);
  }

  // Text cut at what trimming keeps.
  lemma TrimCuts(s: string) returns (before: string, after: string)
    ensures s == before + Text.Trim(s) + after
    ensures |before| == |s| - Kept(s) && before == s[..|s| - Kept(s)]
    ensures forall c | c in Text.Trim(s) :: c in s
  {
    TrimStartIsSuffix(s);
    var kept := Text.TrimStart(s);
    TrimEndIsPrefix(kept);
    hide Text.TrimStart, Text.TrimEnd, Text.IsWhitespace;
    var value := Text.TrimEnd(kept);
    before, after := s[..|s| - |kept|], kept[|value|..];
    assert s == before + kept && kept == value + after;
    assert s == before + value + after;
  }

  // Line `k` cut at the value: the prefix, text before the value, the value, text after it.
  lemma CutAtValue(lines: seq<string>, prefix: string, k: nat)
    returns (before: string, after: string)
    requires k < |lines| && Matches(lines[k], prefix) && IsLine(lines[k])
    ensures var found := InLine(lines, prefix, k);
      && lines[k] == prefix + before + found.value + after
      && found.start == Size(Concat(lines[..k]) + prefix + before)
      && found.end == found.start + Size(found.value)
      && '\n' !in found.value
  {
    var line, body := lines[k], Body(lines[k]);
    BodyIsPrefix(line);
    var rest := body[|prefix|..];
    var more;
    before, more := TrimCuts(rest);
    hide Body, Text.Trim, Concat, Utf8.Encode, Kept;
    after := more + line[|body|..];
    assert body == prefix + rest && line == body + line[|body|..];
    assert line == prefix + before + Text.Trim(rest) + after;
  }

  lemma SliceOfParts(x: seq<byte>, a: seq<byte>, b: seq<byte>, c: seq<byte>)
    requires x == a + b + c
    ensures |a| + |b| <= |x| && x[|a|..|a| + |b|] == b
  {
  }

  predicate Slices(bytes: seq<byte>, start: int, end: int, part: seq<byte>) {
    0 <= start <= end <= |bytes| && bytes[start..end] == part
  }

  // The byte ranges of a line and of the value in it.
  lemma RangesOfParts(head: string, prefix: string, before: string, value: string, after: string, tail: string)
    ensures var line := prefix + before + value + after;
      var bytes := Utf8.Encode(head + line + tail);
      var start := Size(head + prefix + before);
      && Slices(bytes, Size(head), Size(head) + Size(line), Utf8.Encode(line))
      && Slices(bytes, start, start + Size(value), Utf8.Encode(value))
      && Size(head) + Size(prefix) <= start && start + Size(value) <= Size(head) + Size(line)
  {
    hide Utf8.Encode;
    var line := prefix + before + value + after;
    SizeOfParts(head, line, tail);
    SliceOfParts(Utf8.Encode(head + line + tail), Utf8.Encode(head), Utf8.Encode(line), Utf8.Encode(tail));
    SizeOfParts(head, prefix, before);
    SizeOfParts(prefix + before, value, after);
    Utf8.EncodeConcat(prefix, before);
    Utf8.EncodeConcat(after, tail);
    Utf8.EncodeConcat(value, after + tail);
    assert head + line + tail == (head + prefix + before) + value + (after + tail);
    SizeOfParts(head + prefix + before, value, after + tail);
    SliceOfParts(Utf8.Encode(head + line + tail), Utf8.Encode(head + prefix + before), Utf8.Encode(value),
                 Utf8.Encode(after + tail));
  }

  /** The range that is returned slices the output to the value, lies inside its line and holds no line feed. */
  lemma RangeHoldsValue(bytes: seq<byte>, prefix: string, k: nat)
    requires Utf8.IsUtf8(bytes) && FirstMatch(Lines(Utf8.Decode(bytes).value), prefix, k)
    ensures var lines := Lines(Utf8.Decode(bytes).value);
      var found := InLine(lines, prefix, k);
      var from := Size(Concat(lines[..k]));
      && Slices(bytes, from, from + Size(lines[k]), Utf8.Encode(lines[k]))
      && Slices(bytes, found.start, found.end, Utf8.Encode(found.value))
      && from + Size(prefix) <= found.start && found.end <= from + Size(lines[k])
      && 0x0A !in bytes[found.start..found.end]
  {
    hide Utf8.Encode, Utf8.Decode, Lines, Concat, InLine, Matches, IsLine, Body;
    var text := Utf8.Decode(bytes).value;
    var lines := Lines(text);
    Utf8.EncodeDecode(bytes);
    LinesSplit(text);
    assert IsLine(lines[k]) by { assert lines[k] in lines; }
    ConcatSplit(lines, k);
    var before, after := CutAtValue(lines, prefix, k);
    RangesOfParts(Concat(lines[..k]), prefix, before, InLine(lines, prefix, k).value, after, Concat(lines[k + 1..]));
    NewlineBytes(InLine(lines, prefix, k).value);
  }

  /** What the loop computes: nothing if the output is not UTF-8 or no line matches, otherwise the value in the first
      line that matches. */
  ghost predicate IsExtraction(bytes: seq<byte>, prefix: string, r: Option<Found>) {
    match Utf8.Decode(bytes)
    case None => r.None?
    case Some(text) =>
      if r.None? then forall line | line in Lines(text) :: !Matches(line, prefix)
      else exists k: nat | FirstMatch(Lines(text), prefix, k) :: r.value == InLine(Lines(text), prefix, k)
  }

  function FirstIndex(lines: seq<string>, prefix: string): (k: Option<nat>)
    ensures k.Some? ==> FirstMatch(lines, prefix, k.value)
    ensures k.None? ==> forall line | line in lines :: !Matches(line, prefix)
  {
    if lines == [] then None
    else if Matches(lines[0], prefix) then Some(0)
    else
      match FirstIndex(lines[1..], prefix)
      case None => None
      case Some(k) => Some(k + 1)
  }

  function Extract(bytes: seq<byte>, prefix: string): Option<Found> {
    match Utf8.Decode(bytes)
    case None => None
    case Some(text) =>
      match FirstIndex(Lines(text), prefix)
      case None => None
      case Some(k) => Some(InLine(Lines(text), prefix, k))
  }

  /** `Extract` is the only extraction there is. */
  lemma ExtractionIsUnique(bytes: seq<byte>, prefix: string, r: Option<Found>)
    ensures IsExtraction(bytes, prefix, r) <==> r == Extract(bytes, prefix)
  {
    hide InLine, Matches;
    if Utf8.Decode(bytes).Some? {
      var lines := Lines(Utf8.Decode(bytes).value);
      assert forall k: nat | FirstMatch(lines, prefix, k) :: lines[k] in lines;
      assert forall j: nat, k: nat | FirstMatch(lines, prefix, j) && FirstMatch(lines, prefix, k) :: j == k;
    }
  }

  /** The loop: `offset` is the number of bytes in the lines before the current one. */
  method ExtractTextPrefix(bytes: seq<byte>, prefix: string) returns (r: Option<Found>)
    ensures r == Extract(bytes, prefix) && IsExtraction(bytes, prefix, r)
    ensures r.Some? ==>
              r.value.start <= r.value.end <= |bytes| && bytes[r.value.start..r.value.end] == Utf8.Encode(r.value.value)
  {
    hide Utf8.Encode, Text.Trim, Text.IsWhitespace, Text.TrimStart, Body, Concat;
    var decoded := Utf8.Decode(bytes);
    if decoded.None? { return None; }
    var lines := Lines(decoded.value);
    var offset := 0;
    assert lines[..0] == [] && Concat([]) == [] && Utf8.Encode([]) == [] by { EmptyText(); }
    for k := 0 to |lines|
      invariant offset == Size(Concat(lines[..k]))
      invariant forall j | 0 <= j < k :: !Matches(lines[j], prefix)
    {
      var body := Body(lines[k]);
      if prefix <= body {
        var value := body[|prefix|..];
        var leading := Size(body) - Size(value);
        var trimmed := Text.Trim(value);
        var trimStart := Size(value) - Size(Text.TrimStart(value));
        var start := offset + leading + trimStart;
        var end := start + Size(trimmed);
        Offsets(lines, prefix, k);
        assert FirstMatch(lines, prefix, k);
        RangeHoldsValue(bytes, prefix, k);
        ExtractionIsUnique(bytes, prefix, Some(Found(trimmed, start, end)));
        return Some(Found(trimmed, start, end));
      }
      assert lines[..k + 1] == lines[..k] + [lines[k]];
      ConcatSnoc(lines[..k], lines[k]);
      Utf8.EncodeConcat(Concat(lines[..k]), lines[k]);
      offset := offset + Size(lines[k]);
    }
    ExtractionIsUnique(bytes, prefix, None);
    return None;
  }

  lemma EmptyText()
    ensures Concat([]) == [] && Utf8.Encode([]) == []
  {
  }

  // The differences of lengths that the code computes.
  lemma Offsets(lines: seq<string>, prefix: string, k: nat)
    requires k < |lines| && Matches(lines[k], prefix)
    ensures var value := Body(lines[k])[|prefix|..];
      && Size(Body(lines[k])) >= Size(value) >= Size(Text.TrimStart(value))
      && InLine(lines, prefix, k).start == Size(Concat(lines[..k])) + (Size(Body(lines[k])) - Size(value)) +
                                           (Size(value) - Size(Text.TrimStart(value)))
  {
    var body := Body(lines[k]);
    var value := body[|prefix|..];
    var kept := Text.TrimStart(value);
    TrimStartIsSuffix(value);
    var before := value[..|value| - |kept|];
    assert body == prefix + value && value == before + kept;
    hide Utf8.Encode, Body, Concat, Text.TrimStart, Text.Trim;
    Utf8.EncodeConcat(prefix, value);
    Utf8.EncodeConcat(before, kept);
    SizeOfParts(Concat(lines[..k]), prefix, before);
  }
}
