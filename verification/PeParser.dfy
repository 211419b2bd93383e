/** `parse_pe_imports`, loop by loop, over untrusted bytes. Every offset it computes is a `usize`, so no addition
    overflows, and every read is in bounds. */
module PeParser {
  import opened Wrappers
  import opened Bytes
  import opened PeImage
  import Utf8

  // A slice is never longer than isize::MAX.
  predicate IsSlice(b: seq<byte>) {
    |b| <= 0x7FFF_FFFF_FFFF_FFFF
  }

  lemma LeBounds(b: seq<byte>, offset: nat)
    ensures Has(b, offset, 2) ==> Le(b, offset, 2) < 0x1_0000
    ensures Has(b, offset, 4) ==> Le(b, offset, 4) < 0x1_0000_0000
  {
    Pow256Values();
    if Has(b, offset, 2) { LittleEndianEncodes(b[offset..offset + 2]); }
    if Has(b, offset, 4) { LittleEndianEncodes(b[offset..offset + 4]); }
  }

  method ReadU16(b: seq<byte>, offset: usize) returns (r: Option<u16>)
    requires IsSlice(b)
    ensures r == if Has(b, offset, 2) then Some(Le(b, offset, 2)) else None
  {
    LeBounds(b, offset);
    if offset + 2 > U64_MAX || offset + 2 > |b| { return None; }
    TwoBytes(b, offset);
    return Some(b[offset] as int + 0x100 * b[offset + 1] as int);
  }

  method ReadU32(b: seq<byte>, offset: usize) returns (r: Option<u32>)
    requires IsSlice(b)
    ensures r == if Has(b, offset, 4) then Some(Le(b, offset, 4)) else None
  {
    LeBounds(b, offset);
    if offset + 4 > U64_MAX || offset + 4 > |b| { return None; }
    FourBytes(b, offset);
    return Some(b[offset] as int + 0x100 * b[offset + 1] as int + 0x1_0000 * b[offset + 2] as int +
                0x100_0000 * b[offset + 3] as int);
  }

  lemma TwoBytes(b: seq<byte>, offset: nat)
    requires Has(b, offset, 2)
    ensures Le(b, offset, 2) == b[offset] as int + 0x100 * b[offset + 1] as int
  {
    var s := b[offset..offset + 2];
    assert FromLittleEndian(s[1..][1..]) == 0 && FromLittleEndian(s[1..]) == s[1];
  }

  lemma FourBytes(b: seq<byte>, offset: nat)
    requires Has(b, offset, 4)
    ensures Le(b, offset, 4) == b[offset] as int + 0x100 * b[offset + 1] as int + 0x1_0000 * b[offset + 2] as int +
                                0x100_0000 * b[offset + 3] as int
  {
    var s := b[offset..offset + 4];
    assert s[1..][1..] == s[2..] && s[2..][1..] == s[3..] && s[3..][1..] == [];
    assert FromLittleEndian(s[3..]) == s[3];
    assert FromLittleEndian(s[2..]) == s[2] as int + 0x100 * s[3] as int;
    assert FromLittleEndian(s[1..]) == s[1] as int + 0x100 * (s[2] as int + 0x100 * s[3] as int);
  }

  /** `u32::saturating_add`. */
  function SaturatingAdd(a: nat, b: nat): nat {
    if a + b <= 0xFFFF_FFFF then a + b else 0xFFFF_FFFF
  }

  /** `rva_to_offset`: succeeds exactly when the address maps into the file, and returns where. */
  method RvaToOffset(rva: u32, sections: seq<Section>, length: nat) returns (r: Option<usize>)
    requires forall s | s in sections :: s.virtualAddress <= 0xFFFF_FFFF && s.rawOffset <= 0xFFFF_FFFF
    ensures r.Some? ==> MapsTo(sections, length, rva, r.value) && r.value < length
    ensures r.None? ==> forall offset :: !MapsTo(sections, length, rva, offset)
  {
    for i := 0 to |sections|
      invariant forall j | 0 <= j < i :: !Contains(sections[j], rva)
    {
      var s := sections[i];
      var span := if s.virtualSize > s.rawSize then s.virtualSize else s.rawSize;
      if rva >= s.virtualAddress && rva < SaturatingAdd(s.virtualAddress, span) {
        assert IsFirst(sections, rva, i);
        var delta: u32 := rva - s.virtualAddress;
        if delta >= s.rawSize { return None; }
        if s.rawOffset + delta > 0xFFFF_FFFF { return None; }   // checked_add on u32
        var offset: usize := s.rawOffset + delta;
        if offset >= length { return None; }
        return Some(offset);
      }
    }
    return None;
  }

  lemma {:induction false} AsciiIsUtf8(s: seq<byte>)
    requires forall c | c in s :: c < 0x80
    ensures Utf8.IsUtf8(s)
  {
    if s != [] {
      assert s[0] in s && forall c | c in s[1..] :: c in s;
      AsciiIsUtf8(s[1..]);
    }
  }

  /** `read_ascii_name`: succeeds exactly when a valid name is there, and returns it in upper case. */
  method ReadAsciiName(b: seq<byte>, offset: usize) returns (r: Option<seq<byte>>, ghost name: seq<byte>)
    requires IsSlice(b)
    ensures r.Some? ==> IsName(b, offset, name) && r.value == Upper(name)
    ensures r.None? ==> forall n :: !IsName(b, offset, n)
  {
    name := [];
    if offset > |b| { return None, name; }
    var end := NulOffset(b, offset);
    NulDecides(b, offset, end);
    hide Upper, Utf8.IsUtf8, IsPortable;
    if offset + end == |b| || end == 0 || end > 260 { return None, name; }
    name := b[offset..offset + end];
    var text := b[offset..offset + end];
    var portable, upper := PortableUpper(text);
    if !portable { return None, name; }
    PortableIsName(b, offset, end);
    hide IsName;
    if !Utf8.IsUtf8(text) { return None, name; }
    return Some(upper), name;
  }

  // `is_ascii_alphanumeric`, the three further characters, and `to_ascii_uppercase`.
  method PortableUpper(text: seq<byte>) returns (portable: bool, upper: seq<byte>)
    ensures portable <==> forall c | c in text :: IsPortable(c)
    ensures portable ==> upper == Upper(text)
  {
    upper := [];
    for k := 0 to |text|
      invariant |upper| == k && upper == Upper(text[..k])
      invariant forall j | 0 <= j < k :: IsPortable(text[j])
    {
      var c := text[k];
      assert c in text;
      var digit, capital, small := 0x30 <= c <= 0x39, 0x41 <= c <= 0x5A, 0x61 <= c <= 0x7A;
      if !(digit || capital || small || c == 0x2E || c == 0x2D || c == 0x5F) { return false, upper; }
      upper := upper + [if small then c - 0x20 else c];
      assert text[..k + 1] == text[..k] + [c];
    }
    assert text[..|text|] == text;
    portable := true;
  }

  lemma PortableIsName(b: seq<byte>, offset: nat, end: nat)
    requires 1 <= end <= 260 && offset + end < |b| && b[offset + end] == 0
    requires forall c | c in b[offset..offset + end] :: IsPortable(c)
    ensures IsName(b, offset, b[offset..offset + end]) && Utf8.IsUtf8(b[offset..offset + end])
  {
    var text := b[offset..offset + end];
    forall c | c in text
      ensures c < 0x80
    {
      assert IsPortable(c);
    }
    AsciiIsUtf8(text);
  }

  // The search for the end of a name: the first NUL, or the end of the image.
  method NulOffset(b: seq<byte>, offset: usize) returns (end: usize)
    requires IsSlice(b) && offset <= |b|
    ensures offset + end <= |b| && (forall i | offset <= i < offset + end :: b[i] != 0)
    ensures offset + end == |b| || b[offset + end] == 0
  {
    end := 0;
    while offset + end < |b| && b[offset + end] != 0
      invariant offset + end <= |b| && forall i | offset <= i < offset + end :: b[i] != 0
    {
      end := end + 1;
    }
  }

  // A name ends at the first NUL.
  lemma NulDecides(b: seq<byte>, offset: nat, end: nat)
    requires offset + end <= |b| && (forall i | offset <= i < offset + end :: b[i] != 0)
    requires offset + end == |b| || b[offset + end] == 0
    ensures forall n | IsName(b, offset, n) :: |n| == end && n == b[offset..offset + end]
  {
    forall n | IsName(b, offset, n)
      ensures |n| == end && n == b[offset..offset + end]
    {
      assert forall i | 0 <= i < |n| :: b[offset + i] == n[i] && n[i] in n;
    }
  }

  // ----- the header -----

  /** The reads before the section table: they succeed exactly when the image has a header with an import
      directory. */
  method ReadHeader(b: seq<byte>) returns (r: Option<Header>)
    requires IsSlice(b)
    ensures r.Some? ==> IsHeader(b, r.value)
    ensures r.None? ==> forall h :: !IsHeader(b, h)
  {
    if 2 > |b| || b[..2] != [0x4D, 0x5A] { return None; }
    var field := ReadU32(b, 0x3C);
    if field.None? { return None; }
    var pe: usize := field.value;
    if pe + 4 > |b| || b[pe..pe + 4] != [0x50, 0x45, 0x00, 0x00] { return None; }
    var coff: usize := pe + 4;
    var machine := ReadU16(b, coff);
    if machine.None? { return None; }
    var count := ReadU16(b, coff + 2);
    if count.None? { return None; }
    if count.value == 0 || count.value > 96 { return None; }
    var size := ReadU16(b, coff + 16);
    if size.None? { return None; }
    var optional: usize := coff + 20;
    var magic := ReadU16(b, optional);
    if magic.None? || magic.value != 0x20B { return None; }
    var end: usize := optional + size.value;
    if size.value < 240 || end > |b| { return None; }
    var directories := ReadU32(b, optional + 108);
    if directories.None? || directories.value < 2 { return None; }
    var importRva := ReadU32(b, optional + 120);
    var importSize := ReadU32(b, optional + 124);
    if importRva.None? || importSize.None? { return None; }
    var delayRva: u32, delaySize: u32 := 0, 0;
    if directories.value > 13 {
      var rva := ReadU32(b, optional + 216);
      var bytes := ReadU32(b, optional + 220);
      if rva.None? || bytes.None? { return None; }
      delayRva, delaySize := rva.value, bytes.value;
    }
    if importRva.value == 0 || importSize.value < 20 { return None; }
    return Some(Header(machine.value, count.value, end, importRva.value, importSize.value, delayRva, delaySize));
  }

  // ----- the tables -----

  /** The loop over the section headers: succeeds exactly when they lie in the file. */
  method ReadSections(b: seq<byte>, table: usize, count: nat) returns (r: Option<seq<Section>>)
    requires IsSlice(b) && table <= |b| && count <= 96
    ensures r.Some? ==> |r.value| == count && IsSectionTable(b, table, r.value)
    ensures r.Some? ==> forall s | s in r.value :: s.virtualAddress <= 0xFFFF_FFFF && s.rawOffset <= 0xFFFF_FFFF
    ensures r.None? ==> forall sections :: |sections| == count ==> !IsSectionTable(b, table, sections)
  {
    var sections: seq<Section> := [];
    for index := 0 to count
      invariant |sections| == index && IsSectionTable(b, table, sections)
      invariant forall s | s in sections :: s.virtualAddress <= 0xFFFF_FFFF && s.rawOffset <= 0xFFFF_FFFF
    {
      var offset: usize := table + index * 40;
      if offset + 40 > |b| { return None; }
      var virtualSize := ReadU32(b, offset + 8);
      var virtualAddress := ReadU32(b, offset + 12);
      var rawSize := ReadU32(b, offset + 16);
      var rawOffset := ReadU32(b, offset + 20);
      sections := sections + [Section(virtualAddress.value, virtualSize.value, rawOffset.value, rawSize.value)];
    }
    return Some(sections);
  }

  // The five fields of an import descriptor are zero exactly when all its bytes are.
  lemma ZeroFields(b: seq<byte>, offset: nat)
    requires Has(b, offset, IMPORT_SIZE)
    ensures AllZero(b, offset, IMPORT_SIZE) <==>
      Le(b, offset, 4) == 0 && Le(b, offset + 4, 4) == 0 && Le(b, offset + 8, 4) == 0 &&
      Le(b, offset + 12, 4) == 0 && Le(b, offset + 16, 4) == 0
  {
    ZeroField(b, offset);
    ZeroField(b, offset + 4);
    ZeroField(b, offset + 8);
    ZeroField(b, offset + 12);
    ZeroField(b, offset + 16);
  }

  lemma ZeroField(b: seq<byte>, offset: nat)
    requires Has(b, offset, 4)
    ensures Le(b, offset, 4) == 0 <==> AllZero(b, offset, 4)
  {
    ZeroLe(b[offset..offset + 4]);
    var field := b[offset..offset + 4];
    assert forall i | 0 <= i < 4 :: field[i] == b[offset + i];
  }

  lemma {:induction false} ZeroLe(s: seq<byte>)
    ensures FromLittleEndian(s) == 0 <==> forall i | 0 <= i < |s| :: s[i] == 0
  {
    if s != [] {
      ZeroLe(s[1..]);
      assert forall i | 0 < i < |s| :: s[i] == s[1..][i - 1];
    }
  }

  // An outcome of reading one import descriptor.
  datatype Descriptor = Terminator | Module(upper: seq<byte>) | Bad

  method ReadImport(b: seq<byte>, sections: seq<Section>, offset: usize) returns (r: Descriptor, ghost name: seq<byte>)
    requires IsSlice(b) && forall s | s in sections :: s.virtualAddress <= 0xFFFF_FFFF && s.rawOffset <= 0xFFFF_FFFF
    requires offset + IMPORT_SIZE <= U64_MAX
    ensures r.Terminator? <==> AllZero(b, offset, IMPORT_SIZE)
    ensures r.Module? ==> Imports(b, sections, offset, name) && r.upper == Upper(name)
    ensures r.Bad? ==> forall n :: !Imports(b, sections, offset, n)
  {
    name := [];
    var originalThunk := ReadU32(b, offset);
    var timestamp := ReadU32(b, offset + 4);
    var forwarder := ReadU32(b, offset + 8);
    var nameRva := ReadU32(b, offset + 12);
    var firstThunk := ReadU32(b, offset + 16);
    if originalThunk.None? || timestamp.None? || forwarder.None? || nameRva.None? || firstThunk.None? {
      return Bad, name;
    }
    ZeroFields(b, offset);
    if originalThunk.value == 0 && timestamp.value == 0 && forwarder.value == 0 && nameRva.value == 0 &&
        firstThunk.value == 0 {
      return Terminator, name;
    }
    if nameRva.value == 0 { return Bad, name; }
    var at := RvaToOffset(nameRva.value, sections, |b|);
    if at.None? { return Bad, name; }
    var upper;
    upper, name := ReadAsciiName(b, at.value);
    if upper.None? {
      NoNameNoImport(b, sections, offset, at.value);
      return Bad, name;
    }
    return Module(upper.value), name;
  }

  lemma NoNameNoImport(b: seq<byte>, sections: seq<Section>, offset: nat, at: nat)
    requires Has(b, offset, IMPORT_SIZE) && MapsTo(sections, |b|, Le(b, offset + 12, 4), at)
    requires forall n :: !IsName(b, at, n)
    ensures forall n :: !Imports(b, sections, offset, n)
  {
    var rva := Le(b, offset + 12, 4);
    forall other | MapsTo(sections, |b|, rva, other)
      ensures other == at
    {
      MapsToOne(sections, |b|, rva, at, other);
    }
  }

  // The first `k` descriptors name these modules.
  ghost predicate ImportsSoFar(b: seq<byte>, sections: seq<Section>, base: nat, names: seq<seq<byte>>) {
    forall i | 0 <= i < |names| :: Imports(b, sections, base + IMPORT_SIZE * i, names[i])
  }

  // A table goes past `k` descriptors, and then names a module there, or it ends there or before.
  lemma TableGives(b: seq<byte>, sections: seq<Section>, base: nat, slots: nat, table: seq<seq<byte>>, k: nat,
                   offset: nat)
    requires IsImportTable(b, sections, base, slots, table) && offset == base + IMPORT_SIZE * k
    ensures |table| < slots && AllZero(b, base + IMPORT_SIZE * |table|, IMPORT_SIZE)
    ensures |table| > k ==> Imports(b, sections, offset, table[k])
  {
  }

  // Where a descriptor neither names a module nor terminates the table, there is no table; nor where the slots
  // run out.
  lemma NoTable(b: seq<byte>, sections: seq<Section>, base: nat, slots: nat, names: seq<seq<byte>>, offset: nat)
    requires ImportsSoFar(b, sections, base, names) && offset == base + IMPORT_SIZE * |names|
    requires |names| >= slots || (!AllZero(b, offset, IMPORT_SIZE) && forall n :: !Imports(b, sections, offset, n))
    ensures forall table :: !IsImportTable(b, sections, base, slots, table)
  {
    forall i | 0 <= i < |names|
      ensures !AllZero(b, base + IMPORT_SIZE * i, IMPORT_SIZE)
    {
      assert Imports(b, sections, base + IMPORT_SIZE * i, names[i]);
    }
    hide Imports, AllZero, IsImportTable;
    forall table | IsImportTable(b, sections, base, slots, table)
      ensures false
    {
      TableGives(b, sections, base, slots, table, |names|, offset);
    }
  }

  /** The loop over the import descriptors: succeeds exactly when the directory is terminated within its slots and
      every descriptor before the terminator names a module; returns the upper-cased names. */
  method ReadImports(b: seq<byte>, sections: seq<Section>, base: usize, slots: nat)
    returns (r: Option<set<seq<byte>>>, ghost names: seq<seq<byte>>)
    requires IsSlice(b) && base <= |b| && slots <= MAX_DESCRIPTORS
    requires forall s | s in sections :: s.virtualAddress <= 0xFFFF_FFFF && s.rawOffset <= 0xFFFF_FFFF
    ensures r.Some? ==> IsImportTable(b, sections, base, slots, names) && r.value == Names(names)
    ensures r.None? ==> forall table :: !IsImportTable(b, sections, base, slots, table)
  {
    hide Imports, AllZero, MapsTo, Names;
    var imports: set<seq<byte>> := {};
    names := [];
    NoNames();
    for index := 0 to slots
      invariant |names| == index && ImportsSoFar(b, sections, base, names) && imports == Names(names)
    {
      var offset: usize := base + index * 20;
      var d, name := ReadImport(b, sections, offset);
      match d
      case Terminator => return Some(imports), names;
      case Bad =>
        NoTable(b, sections, base, slots, names, offset);
        return None, names;
      case Module(upper) =>
        NamesGrow(names, name);
        imports := imports + {upper};
        names := names + [name];
    }
    NoTable(b, sections, base, slots, names, base + IMPORT_SIZE * slots);
    return None, names;
  }

  lemma NoNames()
    ensures Names([]) == {}
  {
  }

  lemma NamesGrow(names: seq<seq<byte>>, name: seq<byte>)
    ensures Names(names + [name]) == Names(names) + {Upper(name)}
  {
    forall n
      ensures n in names + [name] <==> n in names || n == name
    {
    }
    assert forall u :: u in Names(names + [name]) <==> u in Names(names) || u == Upper(name);
  }

  /** The loop over the delay-load descriptors: succeeds exactly when the directory is terminated within its slots,
      and returns the number of descriptors before the terminator. */
  method CountDelayImports(b: seq<byte>, base: usize, slots: nat) returns (r: Option<nat>)
    requires IsSlice(b) && base <= |b| && slots <= MAX_DESCRIPTORS
    ensures r.Some? ==> IsDelayTable(b, base, slots, r.value)
    ensures r.None? ==> forall count :: !IsDelayTable(b, base, slots, count)
  {
    for index := 0 to slots
      invariant forall i | 0 <= i < index ::
        Has(b, base + DELAY_SIZE * i, DELAY_SIZE) && !AllZero(b, base + DELAY_SIZE * i, DELAY_SIZE)
    {
      var offset: usize := base + index * 32;
      if offset + 32 > |b| { return None; }
      var descriptor := b[offset..offset + 32];
      assert forall i | 0 <= i < 32 :: descriptor[i] == b[offset + i];
      if forall c | c in descriptor :: c == 0 {
        assert forall i | offset <= i < offset + 32 ::
          b[i] == descriptor[i - offset] && descriptor[i - offset] in descriptor;
        return Some(index);
      }
      assert exists i | 0 <= i < 32 :: descriptor[i] != 0;
    }
    return None;
  }

  /** `parse_pe_imports`: it accepts exactly the byte strings that are PE32+ images with a terminated, non-empty
      import directory and a well-formed delay-load directory, and returns what they say: the machine, the
      upper-cased module names before the first all-zero import descriptor, and the number of delay-load descriptors
      before the first all-zero one. */
  method ParsePeImports(b: seq<byte>) returns (r: Option<ParsedPe>)
    requires IsSlice(b)
    ensures r.Some? ==> IsPe(b, r.value)
    ensures r.None? ==> forall p :: !IsPe(b, p)
    ensures r.Some? ==>
      exists h, sections, names :: Describes(b, h, sections, names, r.value) && AreCapitals(r.value.imports, names)
    ensures r.Some? ==> forall n | n in r.value.imports :: n != [] && forall c | c in n :: !(0x61 <= c <= 0x7A)
  {
    hide IsHeader, IsSectionTable, MapsTo, IsImportTable, IsDelayCount, Names, AreCapitals;
    var header := ReadHeader(b);
    if header.None? { return None; }
    var h := header.value;
    HeaderFits(b, h);
    var table := ReadSections(b, h.sectionTable, h.sectionCount);
    if table.None? {
      NoSections(b, h);
      return None;
    }
    var sections := table.value;
    var base := RvaToOffset(h.importRva, sections, |b|);
    if base.None? {
      NoBase(b, h, sections);
      return None;
    }
    var slots := if h.importSize / 20 < 4096 then h.importSize / 20 else 4096;
    var imports, names := ReadImports(b, sections, base.value, slots);
    if imports.None? || imports.value == {} {
      NoImports(b, h, sections, base.value, names);
      return None;
    }
    var count := ReadDelay(b, h, sections);
    if count.None? {
      NoDelay(b, h, sections, base.value);
      return None;
    }
    NamesOfNone(names);
    var p := ParsedPe(h.machine, imports.value, count.value);
    assert Describes(b, h, sections, names, p);
    ImportsAreCapitals(b, p);
    return Some(p);
  }

  lemma HeaderFits(b: seq<byte>, h: Header)
    requires IsHeader(b, h)
    ensures h.sectionTable <= |b| && h.sectionCount <= 96
  {
  }

  lemma NoSections(b: seq<byte>, h: Header)
    requires IsHeader(b, h)
    requires forall sections :: |sections| == h.sectionCount ==> !IsSectionTable(b, h.sectionTable, sections)
    ensures forall p :: !IsPe(b, p)
  {
    forall k | IsHeader(b, k) { HeaderIsOne(b, h, k); }
  }

  lemma NoBase(b: seq<byte>, h: Header, sections: seq<Section>)
    requires IsHeader(b, h) && |sections| == h.sectionCount && IsSectionTable(b, h.sectionTable, sections)
    requires forall offset :: !MapsTo(sections, |b|, h.importRva, offset)
    ensures forall p :: !IsPe(b, p)
  {
    forall k | IsHeader(b, k) { HeaderIsOne(b, h, k); }
    hide IsHeader, MapsTo;
    forall other | IsSectionTable(b, h.sectionTable, other) && |other| == |sections| {
      SectionsAreOne(b, h.sectionTable, sections, other);
    }
  }

  lemma NamesOfNone(names: seq<seq<byte>>)
    ensures Names(names) == {} <==> names == []
  {
    if names != [] { assert names[0] in names && Upper(names[0]) in Names(names); }
  }

  lemma NoImports(b: seq<byte>, h: Header, sections: seq<Section>, base: nat, found: seq<seq<byte>>)
    requires IsHeader(b, h) && |sections| == h.sectionCount && IsSectionTable(b, h.sectionTable, sections)
    requires MapsTo(sections, |b|, h.importRva, base)
    requires (forall table :: !IsImportTable(b, sections, base, Slots(h.importSize, IMPORT_SIZE), table)) ||
             (Names(found) == {} && IsImportTable(b, sections, base, Slots(h.importSize, IMPORT_SIZE), found))
    ensures forall p :: !IsPe(b, p)
  {
    hide IsHeader, IsSectionTable, MapsTo;
    NamesOfNone(found);
    forall h', sections', names, p | Describes(b, h', sections', names, p)
      ensures false
    {
      DescribesThrough(b, h, sections, base, h', sections', names, p);
      EmptyTableStops(b, sections, base, Slots(h.importSize, IMPORT_SIZE), names);
    }
  }

  // A table with a name does not start with the terminator.
  lemma EmptyTableStops(b: seq<byte>, sections: seq<Section>, base: nat, slots: nat, names: seq<seq<byte>>)
    requires IsImportTable(b, sections, base, slots, names) && names != []
    ensures !IsImportTable(b, sections, base, slots, [])
  {
    assert Imports(b, sections, base + IMPORT_SIZE * 0, names[0]);
  }

  lemma NoDelay(b: seq<byte>, h: Header, sections: seq<Section>, base: nat)
    requires IsHeader(b, h) && |sections| == h.sectionCount && IsSectionTable(b, h.sectionTable, sections)
    requires MapsTo(sections, |b|, h.importRva, base) && forall count :: !IsDelayCount(b, h, sections, count)
    ensures forall p :: !IsPe(b, p)
  {
    hide IsHeader, IsSectionTable, MapsTo, IsDelayCount;
    forall h', sections', names, p | Describes(b, h', sections', names, p)
      ensures false
    {
      DescribesThrough(b, h, sections, base, h', sections', names, p);
    }
  }

  method ReadDelay(b: seq<byte>, h: Header, sections: seq<Section>) returns (r: Option<nat>)
    requires IsSlice(b) && IsHeader(b, h)
    requires forall s | s in sections :: s.virtualAddress <= 0xFFFF_FFFF && s.rawOffset <= 0xFFFF_FFFF
    ensures r.Some? ==> IsDelayCount(b, h, sections, r.value)
    ensures r.None? ==> forall count :: !IsDelayCount(b, h, sections, count)
  {
    if h.delayRva == 0 && h.delaySize == 0 { return Some(0); }
    if h.delayRva == 0 || h.delaySize < 32 { return None; }
    var base := RvaToOffset(h.delayRva, sections, |b|);
    if base.None? { return None; }
    r := CountDelayImports(b, base.value, if h.delaySize / 32 < 4096 then h.delaySize / 32 else 4096);
    if r.None? {
      forall other | MapsTo(sections, |b|, h.delayRva, other)
        ensures other == base.value
      {
        MapsToOne(sections, |b|, h.delayRva, base.value, other);
      }
    }
  }
}
