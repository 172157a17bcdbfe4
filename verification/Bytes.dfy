/** Machine integers, byte strings and the orders the program compares them by. */
module Bytes {

  const U64_MAX: int := 0xFFFF_FFFF_FFFF_FFFF
  const U128_MAX: int := 0xFFFF_FFFF_FFFF_FFFF_FFFF_FFFF_FFFF_FFFF
  const I64_MAX: int := 0x7FFF_FFFF_FFFF_FFFF

  type Byte = x: int | 0 <= x < 256
  type u64 = x: int | 0 <= x <= 0xFFFF_FFFF_FFFF_FFFF
  type u128 = x: int | 0 <= x <= 0xFFFF_FFFF_FFFF_FFFF_FFFF_FFFF_FFFF_FFFF
  type i64 = x: int | -0x8000_0000_0000_0000 <= x <= 0x7FFF_FFFF_FFFF_FFFF

  /** A 32-byte value: a hash, a node of a tree, or a public key. */
  type Bytes32 = s: seq<Byte> | |s| == 32 witness seq(32, _ => 0)
  type Pubkey = Bytes32

  /** SHA-256 is only ever used through its type: any function to 32 bytes. */
  type HashFn = seq<Byte> -> Bytes32

  /** Two different inputs with one hash. */
  predicate Collides(h: HashFn, x: seq<Byte>, y: seq<Byte>) {
    x != y && h(x) == h(y)
  }

  datatype Option<+T> = None | Some(value: T)

  datatype Result<+T, +E> = Ok(value: T) | Err(error: E)
  {
    predicate IsFailure() {
      Err?
    }
    function PropagateFailure<U>(): Result<U, E>
      requires Err?
    {
      Err(error)
    }
    function Extract(): T
      requires Ok?
    {
      value
    }
  }

  /** The outcome of a `require!`. */
  datatype Outcome<+E> = Pass | Fail(error: E)
  {
    predicate IsFailure() {
      Fail?
    }
    function PropagateFailure<U>(): Result<U, E>
      requires Fail?
    {
      Err(error)
    }
  }

  function Require<E>(condition: bool, error: E): Outcome<E> {
    if condition then Pass else Fail(error)
  }

  /** Lexicographic order, as Rust compares arrays, slices and strings. */
  predicate LexLe(a: seq<Byte>, b: seq<Byte>) {
    a == [] || (b != [] && (a[0] < b[0] || (a[0] == b[0] && LexLe(a[1..], b[1..]))))
  }

  lemma {:induction false} LexTotal(a: seq<Byte>, b: seq<Byte>)
    ensures LexLe(a, b) || LexLe(b, a)
  {
    if a != [] && b != [] && a[0] == b[0] {
      LexTotal(a[1..], b[1..]);
    }
  }

  lemma {:induction false} LexAntisymmetric(a: seq<Byte>, b: seq<Byte>)
    requires LexLe(a, b) && LexLe(b, a)
    ensures a == b
  {
    if a != [] && b != [] {
      LexAntisymmetric(a[1..], b[1..]);
      assert a == [a[0]] + a[1..] && b == [b[0]] + b[1..];
    }
  }

  lemma {:induction false} LexTransitive(a: seq<Byte>, b: seq<Byte>, c: seq<Byte>)
    requires LexLe(a, b) && LexLe(b, c)
    ensures LexLe(a, c)
  {
    if a != [] && b != [] && c != [] && a[0] == b[0] == c[0] {
      LexTransitive(a[1..], b[1..], c[1..]);
    }
  }

  /** The order by the first byte that differs; a proper prefix comes first. */
  ghost predicate Precedes(a: seq<Byte>, b: seq<Byte>) {
    || a < b
    || exists k :: 0 <= k < |a| && k < |b| && DiffersFirstAt(a, b, k) && a[k] < b[k]
  }

  predicate DiffersFirstAt(a: seq<Byte>, b: seq<Byte>, k: nat)
    requires k < |a| && k < |b|
  {
    a[..k] == b[..k] && a[k] != b[k]
  }

  /** The recursive comparison is that order. */
  lemma {:induction false} LexLeIff(a: seq<Byte>, b: seq<Byte>)
    ensures LexLe(a, b) <==> a == b || Precedes(a, b)
    decreases |a|
  {
    if a != [] && b != [] {
      if a[0] == b[0] {
        LexLeIff(a[1..], b[1..]);
        PrecedesTail(a, b);
      } else {
        assert DiffersFirstAt(a, b, 0);
      }
    }
  }

  lemma PrecedesTail(a: seq<Byte>, b: seq<Byte>)
    requires a != [] && b != [] && a[0] == b[0]
    ensures a == b <==> a[1..] == b[1..]
    ensures Precedes(a, b) <==> Precedes(a[1..], b[1..])
  {
    var c, d := a[1..], b[1..];
    assert a == [a[0]] + c && b == [b[0]] + d;
    if k :| 0 <= k < |a| && k < |b| && DiffersFirstAt(a, b, k) && a[k] < b[k] {
      assert c[..k - 1] == a[..k][1..] && d[..k - 1] == b[..k][1..];
      assert DiffersFirstAt(c, d, k - 1) && c[k - 1] < d[k - 1];
    }
    if k :| 0 <= k < |c| && k < |d| && DiffersFirstAt(c, d, k) && c[k] < d[k] {
      assert a[..k + 1] == [a[0]] + c[..k] && b[..k + 1] == [b[0]] + d[..k];
      assert DiffersFirstAt(a, b, k + 1) && a[k + 1] < b[k + 1];
    }
  }

  /** Of two different byte strings exactly one precedes the other. */
  lemma PrecedesTotal(a: seq<Byte>, b: seq<Byte>)
    ensures a != b ==> (Precedes(a, b) <==> !LexLe(b, a)) && (Precedes(a, b) <==> !Precedes(b, a))
    ensures Precedes(a, b) ==> a != b
  {
    LexLeIff(a, b);
    LexLeIff(b, a);
    LexTotal(a, b);
    if a != b && LexLe(a, b) && LexLe(b, a) {
      LexAntisymmetric(a, b);
    }
  }

  /** 256 to the k. */
  function Pow256(k: nat): nat {
    if k == 0 then 1 else 256 * Pow256(k - 1)
  }

  /** The k low-order bytes of x, least significant first (`to_le_bytes` for k = 8). */
  function LittleEndian(x: nat, k: nat): (s: seq<Byte>)
    ensures |s| == k
  {
    if k == 0 then [] else [x % 256] + LittleEndian(x / 256, k - 1)
  }

  /** The number that bytes spell, byte i counting 256 to the i. */
  function Spelled(s: seq<Byte>): nat {
    if s == [] then 0 else Spelled(s[..|s| - 1]) + s[|s| - 1] * Pow256(|s| - 1)
  }

  lemma {:induction false} SpelledFront(b: Byte, s: seq<Byte>)
    ensures Spelled([b] + s) == b + 256 * Spelled(s)
    decreases |s|
  {
    if s == [] {
      assert [b] + s == [b] && [b][..0] == [];
    } else {
      var init := s[..|s| - 1];
      SpelledFront(b, init);
      assert ([b] + s)[..|s|] == [b] + init;
    }
  }

  /** A number that fits k bytes is read back from them. */
  lemma {:induction false} LittleEndianReadsBack(x: nat, k: nat)
    requires x < Pow256(k)
    ensures Spelled(LittleEndian(x, k)) == x
  {
    if k > 0 {
      LittleEndianReadsBack(x / 256, k - 1);
      SpelledFront(x % 256, LittleEndian(x / 256, k - 1));
    }
  }

  lemma ProductNonNegative(a: int, b: int)
    requires a >= 0 && b >= 0
    ensures a * b >= 0
  {
  }

  /** The bounds are those of eight and sixteen bytes, and of eight bytes with a sign. */
  lemma MachineWidths()
    ensures U64_MAX + 1 == Pow256(8) && U128_MAX + 1 == Pow256(16) && 2 * (I64_MAX + 1) == Pow256(8)
  {
    assert Pow256(4) == 0x1_0000_0000;
    assert Pow256(8) == 0x1_0000_0000_0000_0000;
    assert Pow256(12) == 0x1_0000_0000_0000_0000_0000_0000;
    assert Pow256(16) == 0x1_0000_0000_0000_0000_0000_0000_0000_0000;
  }
}
