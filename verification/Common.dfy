/** Option and Result, as the source's `Option` and `anyhow::Result`. */
module Wrappers {
  datatype Option<+T> = None | Some(value: T)

  datatype Result<+T, +E> = Ok(value: T) | Err(error: E)
}

/** Byte strings: their order, little-endian integers and the machine integer types. */
module Bytes {
  type byte = b: int | 0 <= b < 0x100
  type u16 = n: int | 0 <= n < 0x1_0000
  type u32 = n: int | 0 <= n < 0x1_0000_0000
  type u64 = n: int | 0 <= n < 0x1_0000_0000_0000_0000
  // usize on the 64-bit targets the repository builds for
  type usize = n: int | 0 <= n < 0x1_0000_0000_0000_0000

  const U64_MAX := 0xFFFF_FFFF_FFFF_FFFF

  // A hash function over byte strings. Nothing is assumed about it beyond being a function.
  type Digest = seq<byte>
  type Hash = seq<byte> -> Digest

  /** The order of Rust byte slices: at the first difference the smaller element wins, and a proper prefix
      comes first. */
  predicate LexLess(a: seq<int>, b: seq<int>) {
    exists k :: 0 <= k <= |a| && DiffersAt(a, b, k)
  }

  predicate DiffersAt(a: seq<int>, b: seq<int>, k: nat)
    requires k <= |a|
  {
    k < |b| && a[..k] == b[..k] && (k == |a| || a[k] < b[k])
  }

  /** The order compares the first elements, and then the rest. */
  lemma LexOfFirst(x: int, a: seq<int>, y: int, b: seq<int>)
    ensures !LexLess(a, [])
    ensures LexLess([], b) <==> b != []
    ensures LexLess([x] + a, [y] + b) <==> x < y || (x == y && LexLess(a, b))
  {
    assert b != [] ==> DiffersAt([], b, 0);
    var s, t := [x] + a, [y] + b;
    if x < y { assert DiffersAt(s, t, 0); }
    if x == y && LexLess(a, b) { LexPrepend(x, a, b); }
    if LexLess(s, t) {
      var k :| 0 <= k <= |s| && DiffersAt(s, t, k);
      if k > 0 {
        assert s[..k][0] == t[..k][0];
        assert s[..k][1..] == a[..k - 1] && t[..k][1..] == b[..k - 1];
        assert DiffersAt(a, b, k - 1);
      }
    }
  }

  lemma LexIrreflexive(a: seq<int>)
    ensures !LexLess(a, a)
  {
  }

  lemma LexTransitive(a: seq<int>, b: seq<int>, c: seq<int>)
    requires LexLess(a, b) && LexLess(b, c)
    ensures LexLess(a, c)
  {
    var j :| 0 <= j <= |a| && DiffersAt(a, b, j);
    var k :| 0 <= k <= |b| && DiffersAt(b, c, k);
    if j <= k {
      assert b[..k][..j] == b[..j] && c[..k][..j] == c[..j];
      assert j < k ==> b[..k][j] == b[j] && c[..k][j] == c[j];
      assert DiffersAt(a, c, j);
    } else {
      assert a[..j][..k] == a[..k] && b[..j][..k] == b[..k];
      assert a[..j][k] == a[k] && b[..j][k] == b[k];
      assert DiffersAt(a, c, k);
    }
  }

  lemma {:induction false} LexTotal(a: seq<int>, b: seq<int>)
    ensures a == b || LexLess(a, b) || LexLess(b, a)
  {
    if a == [] || b == [] {
      assert a == b || (a == [] && DiffersAt(a, b, 0)) || (b == [] && DiffersAt(b, a, 0));
    } else if a[0] != b[0] {
      assert DiffersAt(a, b, 0) || DiffersAt(b, a, 0);
    } else {
      LexTotal(a[1..], b[1..]);
      assert a == [a[0]] + a[1..] && b == [b[0]] + b[1..];
      if LexLess(a[1..], b[1..]) {
        LexPrepend(a[0], a[1..], b[1..]);
      } else if LexLess(b[1..], a[1..]) {
        LexPrepend(a[0], b[1..], a[1..]);
      }
    }
  }

  lemma LexPrepend(x: int, a: seq<int>, b: seq<int>)
    requires LexLess(a, b)
    ensures LexLess([x] + a, [x] + b)
  {
    var k :| 0 <= k <= |a| && DiffersAt(a, b, k);
    assert ([x] + a)[..k + 1] == [x] + a[..k] && ([x] + b)[..k + 1] == [x] + b[..k];
    assert DiffersAt([x] + a, [x] + b, k + 1);
  }

  lemma LexAsymmetric(a: seq<int>, b: seq<int>)
    requires LexLess(a, b)
    ensures !LexLess(b, a)
  {
    if LexLess(b, a) {
      LexTransitive(a, b, a);
      LexIrreflexive(a);
    }
  }

  /** `to_le_bytes` of an integer truncated to `width` bytes, as an `as u32` cast truncates. */
  function ToLittleEndian(n: nat, width: nat): (s: seq<byte>)
    ensures |s| == width
  {
    if width == 0 then [] else [n % 0x100] + ToLittleEndian(n / 0x100, width - 1)
  }

  function FromLittleEndian(s: seq<byte>): nat {
    if s == [] then 0 else s[0] + 0x100 * FromLittleEndian(s[1..])
  }

  function Pow256(width: nat): nat {
    if width == 0 then 1 else 0x100 * Pow256(width - 1)
  }

  lemma Pow256Values()
    ensures Pow256(2) == 0x1_0000
    ensures Pow256(4) == 0x1_0000_0000
    ensures Pow256(8) == 0x1_0000_0000_0000_0000
  {
    assert Pow256(1) == 0x100;
    assert Pow256(3) == 0x100_0000;
    assert Pow256(5) == 0x100_0000_0000;
    assert Pow256(6) == 0x1_0000_0000_0000;
    assert Pow256(7) == 0x100_0000_0000_0000;
  }

  lemma {:induction false} LittleEndianDecodes(n: nat, width: nat)
    requires n < Pow256(width)
    ensures FromLittleEndian(ToLittleEndian(n, width)) == n
  {
    if width != 0 {
      LittleEndianDecodes(n / 0x100, width - 1);
      assert ToLittleEndian(n, width)[1..] == ToLittleEndian(n / 0x100, width - 1);
    }
  }

  lemma {:induction false} LittleEndianEncodes(s: seq<byte>)
    ensures FromLittleEndian(s) < Pow256(|s|)
    ensures ToLittleEndian(FromLittleEndian(s), |s|) == s
  {
    if s != [] {
      LittleEndianEncodes(s[1..]);
      var n := FromLittleEndian(s);
      assert n % 0x100 == s[0] && n / 0x100 == FromLittleEndian(s[1..]);
      assert s == [s[0]] + s[1..];
    }
  }
}

/** Lists without repeats. */
module Lists {
  predicate NoRepeats<T(==)>(s: seq<T>) {
    forall i, j | 0 <= i < j < |s| :: s[i] != s[j]
  }

  /** A list without repeats is no longer than a set that holds its elements. */
  lemma {:induction false} NoRepeatsFits<T>(w: seq<T>, s: set<T>)
    requires NoRepeats(w) && forall x | x in w :: x in s
    ensures |w| <= |s|
  {
    if w != [] {
      assert forall x | x in w[1..] :: x in s - {w[0]};
      NoRepeatsFits(w[1..], s - {w[0]});
    }
  }
}
