/** What a PE32+ image says about its imports: the fields of the Microsoft PE Format that `parse_pe_imports` relies
    on, at the offsets of "COFF File Header", "Optional Header (Image Only)", "Section Table (Section Headers)",
    "The .idata Section" and "Delay-Load Import Tables (Image Only)". */
module PeImage {
  import opened Wrappers
  import opened Bytes

  predicate Has(b: seq<byte>, offset: nat, n: nat) {
    offset + n <= |b|
  }

  /** The little-endian integer in `n` bytes at `offset`. */
  function Le(b: seq<byte>, offset: nat, n: nat): nat
    requires Has(b, offset, n)
  {
    FromLittleEndian(b[offset..offset + n])
  }

  datatype Section = Section(virtualAddress: nat, virtualSize: nat, rawOffset: nat, rawSize: nat)

  function SectionAt(b: seq<byte>, offset: nat): Section
    requires Has(b, offset, 40)
  {
    Section(Le(b, offset + 12, 4), Le(b, offset + 8, 4), Le(b, offset + 20, 4), Le(b, offset + 16, 4))
  }

  datatype Header = Header(
    machine: nat, sectionCount: nat, sectionTable: nat, importRva: u32, importSize: nat, delayRva: u32, delaySize: nat)

  const MZ: seq<byte> := [0x4D, 0x5A]
  const PE: seq<byte> := [0x50, 0x45, 0x00, 0x00]
  const PE32_PLUS := 0x20B

  /** The signatures are there and the header fields have these values and lie inside the file. */
  predicate IsHeader(b: seq<byte>, h: Header) {
    && MZ <= b && Has(b, 0x3C, 4)
    && var pe := Le(b, 0x3C, 4);
       var coff, optional := pe + 4, pe + 24;
    && Has(b, pe, 4) && b[pe..pe + 4] == PE
    && Has(b, coff, 20)
    && h.machine == Le(b, coff, 2) && h.sectionCount == Le(b, coff + 2, 2) && 1 <= h.sectionCount <= 96
    && var optionalSize := Le(b, coff + 16, 2);
    && 240 <= optionalSize && Has(b, optional, optionalSize) && Le(b, optional, 2) == PE32_PLUS
    && h.sectionTable == optional + optionalSize
    && var directories := Le(b, optional + 108, 4);
    && 2 <= directories
    && h.importRva == Le(b, optional + 120, 4) && h.importRva != 0
    && h.importSize == Le(b, optional + 124, 4) && 20 <= h.importSize
    && h.delayRva == (if directories > 13 then Le(b, optional + 216, 4) else 0)
    && h.delaySize == (if directories > 13 then Le(b, optional + 220, 4) else 0)
  }

  predicate IsSectionTable(b: seq<byte>, table: nat, sections: seq<Section>) {
    Has(b, table, 40 * |sections|) &&
    forall i | 0 <= i < |sections| :: Has(b, table + 40 * i, 40) && sections[i] == SectionAt(b, table + 40 * i)
  }

  // ----- addresses -----

  /** The address lies in the span of the section; the end of the span saturates at the largest u32. */
  predicate Contains(s: Section, rva: nat) {
    var span := if s.virtualSize > s.rawSize then s.virtualSize else s.rawSize;
    var end := if s.virtualAddress + span > 0xFFFF_FFFF then 0xFFFF_FFFF else s.virtualAddress + span;
    s.virtualAddress <= rva < end
  }

  predicate IsFirst(sections: seq<Section>, rva: nat, i: nat) {
    i < |sections| && Contains(sections[i], rva) && forall j | 0 <= j < i :: !Contains(sections[j], rva)
  }

  /** The address maps to `offset`: through the first section that contains it, inside that section's raw bytes and
      inside the file. */
  ghost predicate MapsTo(sections: seq<Section>, length: nat, rva: nat, offset: nat) {
    exists i: nat :: IsFirst(sections, rva, i) && MapsThrough(sections[i], length, rva, offset)
  }

  predicate MapsThrough(s: Section, length: nat, rva: nat, offset: nat)
    requires Contains(s, rva)
  {
    rva - s.virtualAddress < s.rawSize && offset == s.rawOffset + (rva - s.virtualAddress) &&
    offset <= 0xFFFF_FFFF && offset < length
  }

  lemma MapsToOne(sections: seq<Section>, length: nat, rva: nat, a: nat, b: nat)
    requires MapsTo(sections, length, rva, a) && MapsTo(sections, length, rva, b)
    ensures a == b
  {
    var i: nat :| IsFirst(sections, rva, i) && MapsThrough(sections[i], length, rva, a);
    var j: nat :| IsFirst(sections, rva, j) && MapsThrough(sections[j], length, rva, b);
    assert i == j;
  }

  // ----- names -----

  predicate IsPortable(c: byte) {
    0x30 <= c <= 0x39 || 0x41 <= c <= 0x5A || 0x61 <= c <= 0x7A || c == 0x2E || c == 0x2D || c == 0x5F
  }

  function Upper(name: seq<byte>): seq<byte> {
    seq(|name|, i requires 0 <= i < |name| => if 0x61 <= name[i] <= 0x7A then name[i] - 0x20 else name[i])
  }

  /** The NUL-terminated name at `offset`: 1 to 260 portable characters. */
  predicate IsName(b: seq<byte>, offset: nat, name: seq<byte>) {
    1 <= |name| <= 260 && Has(b, offset, |name| + 1) && b[offset..offset + |name|] == name &&
    b[offset + |name|] == 0 && forall c | c in name :: IsPortable(c)
  }

  lemma NameIsOne(b: seq<byte>, offset: nat, n: seq<byte>, m: seq<byte>)
    requires IsName(b, offset, n) && IsName(b, offset, m)
    ensures n == m
  {
    assert forall i | 0 <= i < |m| :: b[offset + i] == m[i] && m[i] in m;
    assert forall i | 0 <= i < |n| :: b[offset + i] == n[i] && n[i] in n;
  }

  // ----- descriptor tables -----

  const IMPORT_SIZE := 20
  const DELAY_SIZE := 32
  const MAX_DESCRIPTORS := 4096

  predicate AllZero(b: seq<byte>, offset: nat, n: nat) {
    Has(b, offset, n) && forall i | offset <= i < offset + n :: b[i] == 0
  }

  /** The most descriptors that a directory of `size` bytes is read for. */
  function Slots(size: nat, descriptor: nat): nat
    requires descriptor > 0
  {
    if size / descriptor < MAX_DESCRIPTORS then size / descriptor else MAX_DESCRIPTORS
  }

  /** The import descriptor at `offset` is not the terminator and names the module `name`. */
  ghost predicate Imports(b: seq<byte>, sections: seq<Section>, offset: nat, name: seq<byte>) {
    Has(b, offset, IMPORT_SIZE) && !AllZero(b, offset, IMPORT_SIZE) && Le(b, offset + 12, 4) != 0 &&
    exists at :: MapsTo(sections, |b|, Le(b, offset + 12, 4), at) && IsName(b, at, name)
  }

  /** The directory names exactly these modules, one a descriptor, before its first all-zero descriptor. */
  ghost predicate IsImportTable(b: seq<byte>, sections: seq<Section>, base: nat, slots: nat, names: seq<seq<byte>>) {
    && |names| < slots && AllZero(b, base + IMPORT_SIZE * |names|, IMPORT_SIZE)
    && forall i | 0 <= i < |names| :: Imports(b, sections, base + IMPORT_SIZE * i, names[i])
  }

  /** The first all-zero delay-load descriptor is number `count`. */
  predicate IsDelayTable(b: seq<byte>, base: nat, slots: nat, count: nat) {
    && count < slots && AllZero(b, base + DELAY_SIZE * count, DELAY_SIZE)
    && forall i | 0 <= i < count :: Has(b, base + DELAY_SIZE * i, DELAY_SIZE) &&
        !AllZero(b, base + DELAY_SIZE * i, DELAY_SIZE)
  }

  function Names(names: seq<seq<byte>>): set<seq<byte>> {
    set n | n in names :: Upper(n)
  }

  datatype ParsedPe = ParsedPe(machine: nat, imports: set<seq<byte>>, delayImportCount: nat)

  ghost predicate IsDelayCount(b: seq<byte>, h: Header, sections: seq<Section>, count: nat) {
    if h.delayRva == 0 && h.delaySize == 0 then count == 0
    else h.delayRva != 0 && h.delaySize >= DELAY_SIZE &&
         exists base :: MapsTo(sections, |b|, h.delayRva, base) &&
             IsDelayTable(b, base, Slots(h.delaySize, DELAY_SIZE), count)
  }

  /** What the image says: its machine, the case-folded set of the modules its import directory names, of which there
      is at least one, and how many modules it delay-loads. */
  ghost predicate Describes(b: seq<byte>, h: Header, sections: seq<Section>, names: seq<seq<byte>>, p: ParsedPe) {
    && IsHeader(b, h) && |sections| == h.sectionCount && IsSectionTable(b, h.sectionTable, sections)
    && (exists base :: MapsTo(sections, |b|, h.importRva, base) &&
          IsImportTable(b, sections, base, Slots(h.importSize, IMPORT_SIZE), names))
    && names != [] && p.machine == h.machine && p.imports == Names(names)
    && IsDelayCount(b, h, sections, p.delayImportCount)
  }

  ghost predicate IsPe(b: seq<byte>, p: ParsedPe) {
    exists h, sections, names :: Describes(b, h, sections, names, p)
  }

  // ----- an image says one thing -----

  lemma HeaderIsOne(b: seq<byte>, h: Header, k: Header)
    requires IsHeader(b, h) && IsHeader(b, k)
    ensures h == k
  {
  }

  lemma SectionsAreOne(b: seq<byte>, table: nat, s: seq<Section>, t: seq<Section>)
    requires IsSectionTable(b, table, s) && IsSectionTable(b, table, t) && |s| == |t|
    ensures s == t
  {
  }

  /** Once the header, the sections and the import base are known, so is every other part of a description. */
  lemma DescribesThrough(b: seq<byte>, h: Header, sections: seq<Section>, base: nat,
                         h': Header, sections': seq<Section>, names: seq<seq<byte>>, p: ParsedPe)
    requires IsHeader(b, h) && |sections| == h.sectionCount && IsSectionTable(b, h.sectionTable, sections)
    requires MapsTo(sections, |b|, h.importRva, base) && Describes(b, h', sections', names, p)
    ensures IsImportTable(b, sections, base, Slots(h.importSize, IMPORT_SIZE), names) && names != []
    ensures IsDelayCount(b, h, sections, p.delayImportCount)
  {
    HeaderIsOne(b, h, h');
    SectionsAreOne(b, h.sectionTable, sections, sections');
    hide IsHeader, IsSectionTable, MapsTo, IsImportTable, IsDelayTable;
    var other :| MapsTo(sections', |b|, h'.importRva, other) &&
                 IsImportTable(b, sections', other, Slots(h'.importSize, IMPORT_SIZE), names);
    MapsToOne(sections, |b|, h.importRva, base, other);
  }

  lemma ImportIsOne(b: seq<byte>, sections: seq<Section>, offset: nat, n: seq<byte>, m: seq<byte>)
    requires Imports(b, sections, offset, n) && Imports(b, sections, offset, m)
    ensures n == m
  {
    hide MapsTo, IsName;
    var rva := Le(b, offset + 12, 4);
    var x :| MapsTo(sections, |b|, rva, x) && IsName(b, x, n);
    var y :| MapsTo(sections, |b|, rva, y) && IsName(b, y, m);
    MapsToOne(sections, |b|, rva, x, y);
    NameIsOne(b, x, n, m);
  }

  lemma TableNotShorter(b: seq<byte>, sections: seq<Section>, base: nat, slots: nat, s: seq<seq<byte>>,
                        t: seq<seq<byte>>)
    requires IsImportTable(b, sections, base, slots, s) && IsImportTable(b, sections, base, slots, t)
    ensures |s| >= |t|
  {
    forall i | 0 <= i < |t|
      ensures !AllZero(b, base + IMPORT_SIZE * i, IMPORT_SIZE)
    {
      assert Imports(b, sections, base + IMPORT_SIZE * i, t[i]);
    }
  }

  lemma TableIsOne(b: seq<byte>, sections: seq<Section>, base: nat, slots: nat, s: seq<seq<byte>>, t: seq<seq<byte>>)
    requires IsImportTable(b, sections, base, slots, s) && IsImportTable(b, sections, base, slots, t)
    ensures s == t
  {
    TableNotShorter(b, sections, base, slots, s, t);
    TableNotShorter(b, sections, base, slots, t, s);
    forall i | 0 <= i < |s|
      ensures s[i] == t[i]
    {
      ImportIsOne(b, sections, base + IMPORT_SIZE * i, s[i], t[i]);
    }
  }

  lemma DelayIsOne(b: seq<byte>, h: Header, sections: seq<Section>, m: nat, n: nat)
    requires IsDelayCount(b, h, sections, m) && IsDelayCount(b, h, sections, n)
    ensures m == n
  {
    if !(h.delayRva == 0 && h.delaySize == 0) {
      hide MapsTo, AllZero;
      var slots := Slots(h.delaySize, DELAY_SIZE);
      var x :| MapsTo(sections, |b|, h.delayRva, x) && IsDelayTable(b, x, slots, m);
      var y :| MapsTo(sections, |b|, h.delayRva, y) && IsDelayTable(b, y, slots, n);
      MapsToOne(sections, |b|, h.delayRva, x, y);
    }
  }

  /** A byte string describes at most one parse. */
  lemma PeIsOne(b: seq<byte>, p: ParsedPe, q: ParsedPe)
    requires IsPe(b, p) && IsPe(b, q)
    ensures p == q
  {
    hide IsHeader, IsSectionTable, MapsTo, IsImportTable, IsDelayCount;
    var h, sections, names :| Describes(b, h, sections, names, p);
    var k, sections', names' :| Describes(b, k, sections', names', q);
    var base :| MapsTo(sections, |b|, h.importRva, base) &&
                IsImportTable(b, sections, base, Slots(h.importSize, IMPORT_SIZE), names);
    HeaderIsOne(b, h, k);
    DescribesThrough(b, h, sections, base, k, sections', names', q);
    TableIsOne(b, sections, base, Slots(h.importSize, IMPORT_SIZE), names, names');
    DelayIsOne(b, h, sections, p.delayImportCount, q.delayImportCount);
  }

  // ----- case folding -----

  /** Byte by byte the same, but for the letters "a" to "z", which are 0x20 less. */
  predicate IsCapitals(folded: seq<byte>, name: seq<byte>) {
    |folded| == |name| && forall i | 0 <= i < |name| ::
      if 0x61 <= name[i] <= 0x7A then folded[i] == name[i] - 0x20 else folded[i] == name[i]
  }

  // Two bytes are the same letter, or the same byte.
  predicate SameLetter(a: byte, b: byte) {
    a == b || (0x41 <= a <= 0x5A && b == a + 0x20) || (0x41 <= b <= 0x5A && a == b + 0x20)
  }

  /** The two names differ at most in the case of ASCII letters. */
  predicate SameButCase(m: seq<byte>, n: seq<byte>) {
    |m| == |n| && forall i | 0 <= i < |m| :: SameLetter(m[i], n[i])
  }

  /** Two names have the same capitals, and so give one element, exactly if they differ at most in ASCII case. */
  lemma CapitalsAgreeIff(x: seq<byte>, m: seq<byte>, y: seq<byte>, n: seq<byte>)
    requires IsCapitals(x, m) && IsCapitals(y, n)
    ensures x == y <==> SameButCase(m, n)
  {
    if x == y {
      forall i | 0 <= i < |m|
        ensures SameLetter(m[i], n[i])
      {
        assert x[i] == y[i];
      }
    }
    if SameButCase(m, n) {
      forall i | 0 <= i < |m|
        ensures x[i] == y[i]
      {
        assert SameLetter(m[i], n[i]);
      }
    }
  }

  ghost predicate IsCapitalsOfOne(folded: seq<byte>, names: seq<seq<byte>>) {
    exists k :: 0 <= k < |names| && IsCapitals(folded, names[k])
  }

  ghost predicate HasCapitals(imports: set<seq<byte>>, name: seq<byte>) {
    exists n :: n in imports && IsCapitals(n, name)
  }

  /** The elements are the capitals of the names, all of them and nothing else. */
  ghost predicate AreCapitals(imports: set<seq<byte>>, names: seq<seq<byte>>) {
    (forall n | n in imports :: IsCapitalsOfOne(n, names)) && forall name | name in names :: HasCapitals(imports, name)
  }

  lemma FoldedAreCapitals(names: seq<seq<byte>>)
    ensures AreCapitals(Names(names), names)
  {
    forall n | n in Names(names)
      ensures IsCapitalsOfOne(n, names)
    {
      var name :| name in names && Upper(name) == n;
      var k :| 0 <= k < |names| && names[k] == name;
      assert IsCapitals(n, names[k]);
    }
    forall name | name in names
      ensures HasCapitals(Names(names), name)
    {
      assert Upper(name) in Names(names) && IsCapitals(Upper(name), name);
    }
  }

  lemma CapitalsHaveNoSmall(imports: set<seq<byte>>, names: seq<seq<byte>>)
    requires AreCapitals(imports, names) && forall name | name in names :: name != []
    ensures forall n | n in imports :: n != [] && forall c | c in n :: !(0x61 <= c <= 0x7A)
  {
    forall n | n in imports
      ensures n != [] && forall c | c in n :: !(0x61 <= c <= 0x7A)
    {
      assert IsCapitalsOfOne(n, names);
      var k :| 0 <= k < |names| && IsCapitals(n, names[k]);
      assert names[k] in names;
    }
  }

  lemma NamesAreNotEmpty(b: seq<byte>, sections: seq<Section>, base: nat, slots: nat, names: seq<seq<byte>>)
    requires IsImportTable(b, sections, base, slots, names)
    ensures forall name | name in names :: name != []
  {
    hide MapsTo, AllZero;
    forall name | name in names
      ensures name != []
    {
      var k :| 0 <= k < |names| && names[k] == name;
      assert Imports(b, sections, base + IMPORT_SIZE * k, names[k]);
    }
  }

  lemma DescribedAreCapitals(b: seq<byte>, h: Header, sections: seq<Section>, names: seq<seq<byte>>, p: ParsedPe)
    requires Describes(b, h, sections, names, p)
    ensures AreCapitals(p.imports, names) && forall name | name in names :: name != []
  {
    hide IsHeader, IsSectionTable, MapsTo, IsDelayCount, IsImportTable, AreCapitals, Names;
    var base: nat :| MapsTo(sections, |b|, h.importRva, base) &&
                     IsImportTable(b, sections, base, Slots(h.importSize, IMPORT_SIZE), names);
    NamesAreNotEmpty(b, sections, base, Slots(h.importSize, IMPORT_SIZE), names);
    FoldedAreCapitals(names);
  }

  /** The modules of an image, byte by byte: every element is the capitals of a name that a descriptor points at, every
      such name has its capitals among the elements, and no element holds a small letter. */
  lemma ImportsAreCapitals(b: seq<byte>, p: ParsedPe)
    requires IsPe(b, p)
    ensures exists h, sections, names :: Describes(b, h, sections, names, p) && AreCapitals(p.imports, names)
    ensures forall n | n in p.imports :: n != [] && forall c | c in n :: !(0x61 <= c <= 0x7A)
  {
    hide Describes, AreCapitals;
    var h, sections, names :| Describes(b, h, sections, names, p);
    DescribedAreCapitals(b, h, sections, names, p);
    CapitalsHaveNoSmall(p.imports, names);
  }
}
