/** The rolling hash of the Maven wrapper script, computed in the shell's signed 64-bit arithmetic. */
module HashString {
  import opened Numerals

  newtype int64 = x: int | -0x8000_0000_0000_0000 <= x < 0x8000_0000_0000_0000

  /** A character code as `printf %d` prints it. */
  type Code = x: int | 0 <= x < 0x1_0000

  const MODULUS := 0x1_0000_0000

  ghost function Pow31(n: nat): nat {
    if n == 0 then 1 else 31 * Pow31(n - 1)
  }

  /** The first code times 31^(length - 1), and so on down to the last code times 1. */
  ghost function WeightedSum(codes: seq<Code>): nat {
    if codes == [] then 0 else codes[0] * Pow31(|codes| - 1) + WeightedSum(codes[1..])
  }

  ghost function Hash(codes: seq<Code>): nat {
    WeightedSum(codes) % MODULUS
  }

  lemma Pow31Sum(m: nat, n: nat)
    ensures Pow31(m + n) == Pow31(m) * Pow31(n)
  {
    if m > 0 {
      Pow31Sum(m - 1, n);
      assert Pow31(m + n) == 31 * (Pow31(m - 1) * Pow31(n)) == Pow31(m) * Pow31(n);
    }
  }

  lemma Distribute(a: int, b: int, c: int, d: int)
    ensures a * (b * d) + c * d == (a * b + c) * d
  {
  }

  lemma {:induction false} WeightedSumConcat(s: seq<Code>, t: seq<Code>)
    ensures WeightedSum(s + t) == WeightedSum(s) * Pow31(|t|) + WeightedSum(t)
  {
    if s == [] {
      assert s + t == t;
    } else {
      assert (s + t)[1..] == s[1..] + t;
      WeightedSumConcat(s[1..], t);
      Pow31Sum(|s| - 1, |t|);
      assert (s + t)[0] == s[0] && |s + t| - 1 == (|s| - 1) + |t|;
      Distribute(s[0], Pow31(|s| - 1), WeightedSum(s[1..]), Pow31(|t|));
    }
  }

  lemma ModMulAdd(a: nat, b: nat, c: nat)
    ensures ((a % MODULUS) * b + c) % MODULUS == (a * b + c) % MODULUS
  {
    var q := a / MODULUS;
    assert a * b + c == (a % MODULUS) * b + c + (q * b) * MODULUS by {
      assert a == q * MODULUS + a % MODULUS;
    }
    ModShift((a % MODULUS) * b + c, q * b);
  }

  lemma ModAdd(a: int, b: int)
    ensures (a + b % MODULUS) % MODULUS == (a + b) % MODULUS
  {
    ModShift(a + b % MODULUS, b / MODULUS);
  }

  lemma ModShift(x: int, k: int)
    ensures (x + k * MODULUS) % MODULUS == x % MODULUS
  {
  }

  /** The hash of a concatenation, from the hashes of its parts. */
  lemma HashConcat(s: seq<Code>, t: seq<Code>)
    ensures Hash(s + t) == (Hash(s) * Pow31(|t|) + Hash(t)) % MODULUS
  {
    WeightedSumConcat(s, t);
    ModMulAdd(WeightedSum(s), Pow31(|t|), WeightedSum(t));
    ModAdd(Hash(s) * Pow31(|t|), WeightedSum(t));
  }

  lemma HashSnoc(s: seq<Code>, c: Code)
    ensures Hash(s + [c]) == (Hash(s) * 31 + c) % MODULUS
  {
    WeightedSumConcat(s, [c]);
    assert WeightedSum([c]) == c && Pow31(|[c]|) == 31;
    ModMulAdd(WeightedSum(s), 31, c);
  }

  /** Takes the codes off the front one by one; every intermediate value fits the shell's integers. */
  method HashLoop(codes: seq<Code>) returns (h: int64)
    ensures h as int == Hash(codes)
  {
    var str := codes;
    h := 0;
    ghost var done: seq<Code> := [];
    while str != []
      invariant done + str == codes
      invariant h as int == Hash(done) && 0 <= h < 0x1_0000_0000
    {
      var code := str[0];
      HashSnoc(done, code);
      done := done + [code];
      h := (h * 31 + code as int64) % 0x1_0000_0000;
      str := str[1..];
    }
    assert done == codes;
  }

  /** What the script prints: the hash in lower-case hexadecimal and a newline. */
  method HashString(codes: seq<Code>) returns (printed: string)
    ensures exists hex :: printed == hex + "\n" && AllSymbols(hex) && NoLeadingZero(hex)
                          && Parse(hex, 16) == Hash(codes)
  {
    var h := HashLoop(codes);
    var hex := Render(h as int, 16);
    ParseRender(h as int, 16);
    printed := hex + "\n";
  }

  /** Java's `String.hashCode`: 32-bit signed arithmetic that wraps around. */
  function Wrap32(x: int): int {
    var r := x % 0x1_0000_0000;
    if r < 0x8000_0000 then r else r - 0x1_0000_0000
  }

  function JavaHashCode(codes: seq<Code>): int {
    if codes == [] then 0
    else Wrap32(31 * JavaHashCode(codes[..|codes| - 1]) + codes[|codes| - 1])
  }

  /** The script's hash is Java's hash code read as an unsigned number. */
  lemma {:induction false} HashIsJavaHashCode(codes: seq<Code>)
    ensures Hash(codes) == JavaHashCode(codes) % MODULUS
    ensures JavaHashCode(codes) == Wrap32(Hash(codes))
  {
    if codes != [] {
      var init, c := codes[..|codes| - 1], codes[|codes| - 1];
      HashIsJavaHashCode(init);
      assert codes == init + [c];
      HashSnoc(init, c);
      WrapStep(JavaHashCode(init), Hash(init), c);
    }
  }

  /** Wrapping before or after a step of the hash gives the same residue. */
  lemma WrapStep(j: int, h: int, c: Code)
    requires 0 <= h < MODULUS && j == Wrap32(h)
    ensures (31 * h + c) % MODULUS == Wrap32(31 * j + c) % MODULUS
    ensures Wrap32(31 * j + c) == Wrap32((31 * h + c) % MODULUS)
  {
    var k := if h < 0x8000_0000 then 0 else -1;
    assert j == h + k * MODULUS;
    assert 31 * j + c == (31 * h + c) + (31 * k) * MODULUS;
    ModShift(31 * h + c, 31 * k);
  }
}
