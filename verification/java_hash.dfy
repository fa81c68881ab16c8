/**
 Java's `int` hash arithmetic: narrowing to 32 bits, `String.hashCode` and
 `Objects.hash`.
 */
module JavaHash {
  import opened Common

  const TWO_32: int := 0x1_0000_0000

  /** An integer narrowed to a Java `int`: the value with the same low 32 bits. */
  function Wrap(x: int): (r: Int32)
    ensures (x - r) % TWO_32 == 0
  {
    ((x - MIN_INT) % TWO_32) + MIN_INT
  }

  /** A remainder is determined by any quotient-remainder split. */
  lemma ModUnique(a: int, q: int, r: int)
    requires a == q * TWO_32 + r && 0 <= r < TWO_32
    ensures a % TWO_32 == r
  {
  }

  /** Adding a multiple of 2^32 does not change the narrowed value. */
  lemma WrapShift(x: int, k: int)
    ensures Wrap(x + k * TWO_32) == Wrap(x)
  {
    var y := x - MIN_INT;
    ModUnique(y + k * TWO_32, y / TWO_32 + k, y % TWO_32);
  }

  lemma WrapInt32(x: Int32)
    ensures Wrap(x) == x
  {
    ModUnique(x - MIN_INT, 0, x - MIN_INT);
  }

  /** One Horner step may narrow its input first or not. */
  lemma WrapHorner(x: int, d: int)
    ensures Wrap(31 * Wrap(x) + d) == Wrap(31 * x + d)
  {
    var t := (x - MIN_INT) / TWO_32;
    assert Wrap(x) == x - t * TWO_32;
    WrapShift(31 * x + d, -31 * t);
  }

  /** `String.hashCode`, computed as Java does, narrowing after every step. */
  function StringHash(s: string): Int32
    decreases |s|
  {
    if |s| == 0 then 0 else Wrap(31 * StringHash(s[..|s| - 1]) + s[|s| - 1] as int)
  }

  /** The documented value of `String.hashCode` before narrowing:
      s[0]*31^(n-1) + ... + s[n-1]. */
  function Polynomial(s: string): int
    decreases |s|
  {
    if |s| == 0 then 0 else 31 * Polynomial(s[..|s| - 1]) + s[|s| - 1] as int
  }

  /** Narrowing after every step equals narrowing once at the end. */
  lemma {:induction false} StringHashIsPolynomial(s: string)
    ensures StringHash(s) == Wrap(Polynomial(s))
    decreases |s|
  {
    if |s| > 0 {
      var init := s[..|s| - 1];
      var p := Polynomial(init);
      StringHashIsPolynomial(init);
      WrapHorner(p, s[|s| - 1] as int);
    }
  }

  /** `Objects.hashCode`: 0 for null. */
  function NullableHash<T>(o: Option<T>, hash: T -> Int32): (r: Int32)
    ensures o.None? ==> r == 0
  {
    if o.None? then 0 else hash(o.value)
  }

  /** `Objects.hash(values...)`, that is `Arrays.hashCode`: start at 1, then
      multiply by 31 and add each element's hash. */
  function ObjectsHash(hashes: seq<Int32>): Int32
    decreases |hashes|
  {
    if |hashes| == 0 then 1 else Wrap(31 * ObjectsHash(hashes[..|hashes| - 1]) + hashes[|hashes| - 1])
  }

  /** The two-value case: 31 * (31 + a) + b, narrowed. */
  lemma ObjectsHashPair(a: Int32, b: Int32)
    ensures ObjectsHash([a, b]) == Wrap(31 * (31 + a) + b)
  {
    assert ObjectsHash([a]) == Wrap(31 + a) by {
      assert [a][..0] == [];
    }
    assert ObjectsHash([a, b]) == Wrap(31 * ObjectsHash([a]) + b) by {
      assert [a, b][..1] == [a];
    }
    WrapHorner(31 + a, b);
  }
}
