/** A user's colour: a rolling hash of the id's UTF-16 code units in double arithmetic. */
module UserColor {
  type CodeUnit = u: nat | u < 0x1_0000

  const TWO_32 := 0x1_0000_0000

  const COLORS := ["#f87171", "#fb923c", "#fbbf24", "#4ade80", "#60a5fa", "#a78bfa", "#f472b6"]

  function Power31(n: nat): nat {
    if n == 0 then 1 else 31 * Power31(n - 1)
  }

  /** The sum of units[i] * 31^(n - 1 - i), with no wrap-around. */
  function Polynomial(units: seq<CodeUnit>): nat {
    if units == [] then 0 else units[0] * Power31(|units| - 1) + Polynomial(units[1..])
  }

  lemma {:induction false} PolynomialAppend(units: seq<CodeUnit>, u: CodeUnit)
    ensures Polynomial([]) == 0 && Polynomial(units + [u]) == 31 * Polynomial(units) + u
    decreases |units|
  {
    var more := units + [u];
    if units == [] {
      assert more[1..] == [];
    } else {
      assert more[1..] == units[1..] + [u];
      PolynomialAppend(units[1..], u);
      assert Power31(|units|) == 31 * Power31(|units| - 1);
      Distribute(units[0], Power31(|units| - 1));
    }
  }

  lemma Distribute(a: nat, p: nat)
    ensures a * (31 * p) == 31 * (a * p)
  {
  }

  /** ToUint32, section 7.1.7 of ECMA-262, of a non-negative integer. */
  function ToUint32(x: nat): nat {
    x % TWO_32
  }

  lemma ModStep(h: nat, u: nat)
    ensures (31 * (h % TWO_32) + u) % TWO_32 == (31 * h + u) % TWO_32
  {
  }

  /** A double holds an integer exactly as long as it stays below 2^53. */
  function AsDouble(x: nat): nat
    requires x < 9007199254740992
  {
    x
  }

  /** The hash is the polynomial modulo 2^32; no intermediate reaches 2^53, so doubles are exact. */
  method HashUserId(units: seq<CodeUnit>) returns (hash: nat)
    ensures hash == Polynomial(units) % 4294967296
  {
    hash := 0;
    for i := 0 to |units|
      invariant hash == Polynomial(units[..i]) % TWO_32
    {
      assert units[..i + 1] == units[..i] + [units[i]];
      PolynomialAppend(units[..i], units[i]);
      ModStep(Polynomial(units[..i]), units[i]);
      hash := ToUint32(AsDouble(AsDouble(hash * 31) + units[i]));
    }
    assert units[..|units|] == units;
  }

  /** The colour is picked by the polynomial, and the index is always in range. */
  method GetUserColor(units: seq<CodeUnit>) returns (color: string)
    ensures color == ["#f87171", "#fb923c", "#fbbf24", "#4ade80", "#60a5fa", "#a78bfa", "#f472b6"][Polynomial(units) % 4294967296 % 7]
  {
    var hash := HashUserId(units);
    color := COLORS[hash % |COLORS|];
  }
}
