/** DistributedLockAdapter.hashKeyToInt64: the number a lock key is turned into. */
module LockHash {
  const TWO_32 := 0x1_0000_0000
  const TWO_31 := 0x8000_0000

  /** Numbers up to 2^53 are exact in JavaScript. */
  const MAX_EXACT := 0x20_0000_0000_0000

  /** One UTF-16 code unit, as charCodeAt returns it. */
  type CodeUnit = n: int | 0 <= n < 0x1_0000

  type Key = seq<CodeUnit>

  /** ToInt32 (section 7.1.6 of ECMA-262). */
  function ToInt32(x: int): (r: int)
    ensures -TWO_31 <= r < TWO_31
  {
    var m := x % TWO_32;
    if m >= TWO_31 then m - TWO_32 else m
  }

  /** The base-31 polynomial of the whole string, unbounded. */
  function Polynomial(key: Key): int {
    if key == [] then 0 else Polynomial(key[..|key| - 1]) * 31 + key[|key| - 1]
  }

  function Abs(x: int): nat {
    if x < 0 then -x else x
  }

  ghost predicate Congruent(x: int, y: int) {
    exists k: int :: x == y + k * TWO_32
  }

  lemma CongruentToInt32(x: int)
    ensures Congruent(ToInt32(x), x)
  {
    var q := x / TWO_32;
    assert x == q * TWO_32 + x % TWO_32;
    if x % TWO_32 >= TWO_31 {
      assert ToInt32(x) == x + (-q - 1) * TWO_32;
    } else {
      assert ToInt32(x) == x + (-q) * TWO_32;
    }
  }

  lemma ShiftModulo(y: int, k: int)
    ensures (y + k * TWO_32) % TWO_32 == y % TWO_32
  {
    var q, r := y / TWO_32, y % TWO_32;
    assert y + k * TWO_32 == (q + k) * TWO_32 + r;
    assert (y + k * TWO_32) / TWO_32 == q + k;
  }

  /** ToInt32 does not tell congruent numbers apart. */
  lemma CongruentNumbersWrapAlike(x: int, y: int)
    requires Congruent(x, y)
    ensures ToInt32(x) == ToInt32(y)
  {
    var k: int :| x == y + k * TWO_32;
    ShiftModulo(y, k);
  }

  /** hash << 5 then - hash + char then & hash, on a hash that is the wrap of p. */
  lemma StepWrapsPolynomial(p: int, c: CodeUnit)
    ensures ToInt32(ToInt32(ToInt32(p) * 32) - ToInt32(p) + c) == ToInt32(p * 31 + c)
  {
    var h := ToInt32(p);
    CongruentToInt32(p);
    CongruentToInt32(h * 32);
    var a: int :| h == p + a * TWO_32;
    var b: int :| ToInt32(h * 32) == h * 32 + b * TWO_32;
    var x := ToInt32(h * 32) - h + c;
    assert x == p * 31 + c + (31 * a + b) * TWO_32;
    CongruentNumbersWrapAlike(x, p * 31 + c);
  }

  /** The number the loop computes. */
  function HashOf(key: Key): nat {
    Abs(ToInt32(Polynomial(key)))
  }

  lemma HashRange(key: Key)
    ensures 0 <= HashOf(key) <= TWO_31
  {
  }

  /** No intermediate number of a round exceeds 2^53, so JavaScript computes each exactly. */
  lemma RoundStaysExact(p: int, c: CodeUnit)
    ensures var hash := ToInt32(p);
      var shifted := ToInt32(hash * 32);
      && -MAX_EXACT <= hash * 32 <= MAX_EXACT && -MAX_EXACT <= shifted - hash <= MAX_EXACT
      && -MAX_EXACT <= shifted - hash + c <= MAX_EXACT && Abs(ToInt32(shifted - hash + c)) <= MAX_EXACT
  {
  }

  /** hashKeyToInt64. */
  method HashKeyToInt64(key: Key) returns (id: nat)
    ensures id == HashOf(key) && id <= TWO_31
  {
    var hash := 0;
    for i := 0 to |key|
      invariant hash == ToInt32(Polynomial(key[..i]))
    {
      var unit := key[i];
      assert key[..i + 1][..i] == key[..i];
      StepWrapsPolynomial(Polynomial(key[..i]), unit);
      var shifted := ToInt32(hash * 32);
      var difference := shifted - hash;
      var sum := difference + unit;
      hash := ToInt32(sum);
    }
    assert key[..|key|] == key;
    id := Abs(hash);
  }

  /** The characters of GenerateAuthzWorkerLockKey before the tenant code. */
  const WORKER_LOCK_PREFIX: Key := [
    97, 117, 116, 104, 122, 58, 114, 101, 99, 111, 110, 99, 105, 108, 105, 97, 116, 105, 111, 110, 45,
    119, 111, 114, 107, 101, 114, 58, 108, 111, 99, 107, 58]

  /** The advisory lock a tenant's worker takes. */
  function WorkerLockId(tenantCode: Key): nat {
    HashOf(WORKER_LOCK_PREFIX + tenantCode)
  }
}
