/** Byte strings: the lexicographic order of Go's `bytes.Compare` (and of Go string
    comparison), and fixed-width integers as the wire and disk formats write them. */
module Bytes {

  type Byte = b: int | 0 <= b < 256

  type Bytes = seq<Byte>

  datatype Option<+T> = None | Some(value: T)

  /** `bytes.Compare(a, b) < 0`. */
  predicate Lt(a: Bytes, b: Bytes) {
    b != [] && (a == [] || a[0] < b[0] || (a[0] == b[0] && Lt(a[1..], b[1..])))
  }

  /** `bytes.Compare(a, b) <= 0`. */
  predicate Le(a: Bytes, b: Bytes) {
    a == b || Lt(a, b)
  }

  lemma {:induction false} LtIrreflexive(a: Bytes)
    ensures !Lt(a, a)
  {
    if a != [] {
      LtIrreflexive(a[1..]);
    }
  }

  lemma {:induction false} LtTransitive(a: Bytes, b: Bytes, c: Bytes)
    requires Lt(a, b) && Lt(b, c)
    ensures Lt(a, c)
  {
    if a != [] && a[0] == b[0] == c[0] {
      LtTransitive(a[1..], b[1..], c[1..]);
    }
  }

  lemma {:induction false} LtTotal(a: Bytes, b: Bytes)
    ensures a == b || Lt(a, b) || Lt(b, a)
  {
    if a != [] && b != [] && a[0] == b[0] {
      LtTotal(a[1..], b[1..]);
      if a[1..] == b[1..] {
        assert a == [a[0]] + a[1..] && b == [b[0]] + b[1..];
      }
    }
  }

  /** Exactly one of `a < b`, `a == b`, `b < a` holds. */
  lemma {:induction false} LtTrichotomy(a: Bytes, b: Bytes)
    ensures a == b || Lt(a, b) || Lt(b, a)
    ensures Lt(a, b) ==> a != b && !Lt(b, a)
    ensures a == b ==> !Lt(a, b) && !Lt(b, a)
  {
    LtTotal(a, b);
    LtIrreflexive(a);
    if Lt(a, b) && Lt(b, a) {
      LtTransitive(a, b, a);
    }
  }

  lemma {:induction false} LeLtTransitive(a: Bytes, b: Bytes, c: Bytes)
    requires (Le(a, b) && Lt(b, c)) || (Lt(a, b) && Le(b, c))
    ensures Lt(a, c)
  {
    if a != b && b != c {
      LtTransitive(a, b, c);
    }
  }

  /** A common prefix does not take part in a comparison. */
  lemma {:induction false} LtCommonPrefix(p: Bytes, a: Bytes, b: Bytes)
    ensures Lt(p + a, p + b) <==> Lt(a, b)
  {
    if p == [] {
      assert p + a == a && p + b == b;
    } else {
      assert (p + a)[1..] == p[1..] + a && (p + b)[1..] == p[1..] + b;
      LtCommonPrefix(p[1..], a, b);
    }
  }

  /** A comparison of strings of one length is not changed by what follows. */
  lemma {:induction false} LtExtend(a: Bytes, b: Bytes, x: Bytes, y: Bytes)
    requires |a| == |b| && Lt(a, b)
    ensures Lt(a + x, b + y)
  {
    if a[0] == b[0] {
      LtExtend(a[1..], b[1..], x, y);
      assert (a + x)[1..] == a[1..] + x && (b + y)[1..] == b[1..] + y;
    }
  }

  /** `k` followed by a zero byte is the immediate successor of `k`: this is how the
      delivery cursor steps past the last key it read. */
  lemma {:induction false} ZeroByteIsSuccessor(k: Bytes, x: Bytes)
    ensures Lt(k, k + [0])
    ensures Lt(k, x) <==> Le(k + [0], x)
  {
    if k == [] {
      assert k + [0] == [0];
      if x != [] && x[0] == 0 {
        assert x == [0] + x[1..];
        assert Lt([], x[1..]) || x[1..] == [];
      }
    } else {
      assert (k + [0])[1..] == k[1..] + [0];
      if x != [] && x[0] == k[0] {
        ZeroByteIsSuccessor(k[1..], x[1..]);
        assert x == [x[0]] + x[1..];
        assert k + [0] == [k[0]] + (k[1..] + [0]);
      } else {
        ZeroByteIsSuccessor(k[1..], []);
      }
    }
  }

  function Pow256(w: nat): (p: nat)
    ensures p > 0
  {
    if w == 0 then 1 else 256 * Pow256(w - 1)
  }

  /** `n` in `w` big-endian bytes, as `binary.BigEndian.PutUint32`/`PutUint64` write it. */
  function BigEndian(n: nat, w: nat): (s: Bytes)
    ensures |s| == w
  {
    if w == 0 then [] else BigEndian(n / 256, w - 1) + [n % 256]
  }

  function FromBigEndian(s: Bytes): (n: nat) {
    if s == [] then 0 else 256 * FromBigEndian(s[..|s| - 1]) + s[|s| - 1]
  }

  lemma {:induction false} BigEndianRoundTrip(n: nat, w: nat)
    requires n < Pow256(w)
    ensures FromBigEndian(BigEndian(n, w)) == n
  {
    if w > 0 {
      BigEndianRoundTrip(n / 256, w - 1);
      var s := BigEndian(n, w);
      assert s[..|s| - 1] == BigEndian(n / 256, w - 1);
    }
  }

  /** Big-endian numbers of one width sort as the numbers do. */
  lemma {:induction false} BigEndianAscends(n: nat, m: nat, w: nat)
    requires n < m < Pow256(w)
    ensures Lt(BigEndian(n, w), BigEndian(m, w))
  {
    if n / 256 < m / 256 {
      BigEndianAscends(n / 256, m / 256, w - 1);
      LtExtend(BigEndian(n / 256, w - 1), BigEndian(m / 256, w - 1), [n % 256], [m % 256]);
    } else {
      LtCommonPrefix(BigEndian(n / 256, w - 1), [n % 256], [m % 256]);
    }
  }

  /** `n` in `w` little-endian bytes, as `binary.LittleEndian` writes it. */
  function LittleEndian(n: nat, w: nat): (s: Bytes)
    ensures |s| == w
  {
    if w == 0 then [] else [n % 256] + LittleEndian(n / 256, w - 1)
  }

  function FromLittleEndian(s: Bytes): (n: nat) {
    if s == [] then 0 else s[0] + 256 * FromLittleEndian(s[1..])
  }

  lemma {:induction false} LittleEndianRoundTrip(n: nat, w: nat)
    requires n < Pow256(w)
    ensures FromLittleEndian(LittleEndian(n, w)) == n
  {
    if w > 0 {
      LittleEndianRoundTrip(n / 256, w - 1);
      assert LittleEndian(n, w)[1..] == LittleEndian(n / 256, w - 1);
    }
  }

  /** Little-endian bytes are the big-endian ones from the end. */
  lemma {:induction false} LittleEndianIsReversed(n: nat, w: nat)
    ensures forall i :: 0 <= i < w ==> LittleEndian(n, w)[i] == BigEndian(n, w)[w - 1 - i]
  {
    if w > 0 { LittleEndianIsReversed(n / 256, w - 1); }
  }

  lemma {:induction false} PowersOf256()
    ensures Pow256(1) == 0x100
    ensures Pow256(2) == 0x1_0000
    ensures Pow256(4) == 0x1_0000_0000
    ensures Pow256(8) == 0x1_0000_0000_0000_0000
  {
    assert Pow256(3) == 0x100_0000;
    assert Pow256(5) == 0x100_0000_0000;
    assert Pow256(6) == 0x1_0000_0000_0000;
    assert Pow256(7) == 0x100_0000_0000_0000;
  }
}
