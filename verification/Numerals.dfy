/** Positional notation, as `format!("{}")` and `printf %x` print non-negative integers. */
module Numerals {

  const SYMBOLS := "0123456789abcdef"

  function Render(n: nat, base: nat): (s: string)
    requires 2 <= base <= 16
    ensures s != "" && AllSymbols(s) && (base <= 10 ==> AllDecimal(s))
    ensures NoLeadingZero(s)
    decreases n
  {
    SymbolRoundTrip(if n < base then n else n % base);
    if n < base then [SYMBOLS[n]]
    else
      QuotientSmaller(n, base);
      Render(n / base, base) + [SYMBOLS[n % base]]
  }

  lemma QuotientSmaller(n: nat, base: nat)
    requires 2 <= base <= n
    ensures n / base < n
    ensures n / base * base + n % base == n
  {
  }

  function Decimal(n: nat): string {
    Render(n, 10)
  }

  predicate IsSymbol(c: char) {
    '0' <= c <= '9' || 'a' <= c <= 'f'
  }

  predicate AllSymbols(s: string) {
    forall i :: 0 <= i < |s| ==> IsSymbol(s[i])
  }

  predicate AllDecimal(s: string) {
    forall i :: 0 <= i < |s| ==> '0' <= s[i] <= '9'
  }

  /** The shortest form of a numeral. */
  predicate NoLeadingZero(s: string) {
    s == "0" || (s != "" && s[0] != '0')
  }

  function SymbolValue(c: char): nat
    requires IsSymbol(c)
  {
    if c <= '9' then (c as int - '0' as int) else 10 + (c as int - 'a' as int)
  }

  /** Reads a numeral back. */
  function Parse(s: string, base: nat): nat
    requires AllSymbols(s)
  {
    if s == "" then 0
    else Parse(s[..|s| - 1], base) * base + SymbolValue(s[|s| - 1])
  }

  lemma SymbolRoundTrip(d: nat)
    requires d < 16
    ensures IsSymbol(SYMBOLS[d]) && SymbolValue(SYMBOLS[d]) == d
    ensures d < 10 ==> '0' <= SYMBOLS[d] <= '9'
  {
    assert d == 0 || d == 1 || d == 2 || d == 3 || d == 4 || d == 5 || d == 6 || d == 7
        || d == 8 || d == 9 || d == 10 || d == 11 || d == 12 || d == 13 || d == 14 || d == 15;
  }

  /** Reading back what was printed gives the number, in every base. */
  lemma {:induction false} ParseRender(n: nat, base: nat)
    requires 2 <= base <= 16
    ensures Parse(Render(n, base), base) == n
  {
    if n < base {
      SymbolRoundTrip(n);
      assert Render(n, base)[..0] == "";
    } else {
      QuotientSmaller(n, base);
      ParseRender(n / base, base);
      SymbolRoundTrip(n % base);
      ParseSnoc(Render(n / base, base), SYMBOLS[n % base], base);
    }
  }

  lemma ParseSnoc(s: string, c: char, base: nat)
    requires AllSymbols(s) && IsSymbol(c)
    ensures AllSymbols(s + [c]) && Parse(s + [c], base) == Parse(s, base) * base + SymbolValue(c)
  {
    assert (s + [c])[..|s|] == s;
  }

  lemma RenderInjective(m: nat, n: nat, base: nat)
    requires 2 <= base <= 16
    requires Render(m, base) == Render(n, base)
    ensures m == n
  {
    ParseRender(m, base);
    ParseRender(n, base);
  }

  predicate AllBelow(s: string, base: nat) {
    forall i :: 0 <= i < |s| ==> IsSymbol(s[i]) && SymbolValue(s[i]) < base
  }

  /** The shortest numeral of a number is its only one: printing what was read gives the numeral. */
  lemma {:induction false} RenderParse(s: string, base: nat)
    requires 2 <= base <= 16 && AllBelow(s, base) && NoLeadingZero(s)
    ensures Render(Parse(s, base), base) == s
    ensures s != "0" ==> Parse(s, base) > 0
  {
    if |s| == 1 {
      assert s == [s[0]];
      SingleSymbol(s[0], base);
    } else {
      var init, last := s[..|s| - 1], s[|s| - 1];
      assert init[0] == s[0];
      RenderParse(init, base);
      ParsedTail(s, init, last, base);
    }
  }

  lemma {:induction false} SingleSymbol(c: char, base: nat)
    requires 2 <= base <= 16 && IsSymbol(c) && SymbolValue(c) < base
    ensures Parse([c], base) == SymbolValue(c) && Render(SymbolValue(c), base) == [c]
  {
    SymbolFromValue(c);
    assert Parse("", base) == 0;
    ParseSnoc("", c, base);
    assert "" + [c] == [c];
  }

  lemma {:induction false} ParsedTail(s: string, init: string, last: char, base: nat)
    requires 2 <= base <= 16 && AllSymbols(init) && IsSymbol(last) && SymbolValue(last) < base && s == init + [last]
    requires Parse(init, base) > 0 && Render(Parse(init, base), base) == init
    ensures AllSymbols(s) && Parse(s, base) > 0 && Render(Parse(s, base), base) == s
  {
    ParseSnoc(init, last, base);
    RenderSnoc(Parse(init, base), last, base);
  }

  lemma {:induction false} RenderSnoc(q: nat, c: char, base: nat)
    requires 2 <= base <= 16 && q > 0 && IsSymbol(c) && SymbolValue(c) < base
    ensures q * base + SymbolValue(c) > 0
    ensures Render(q * base + SymbolValue(c), base) == Render(q, base) + [c]
  {
    SymbolFromValue(c);
    QuotientAndRest(q, SymbolValue(c), base);
  }

  lemma {:induction false} SymbolFromValue(c: char)
    requires IsSymbol(c)
    ensures SymbolValue(c) < 16 && SYMBOLS[SymbolValue(c)] == c
  {
    var d := SymbolValue(c);
    assert d == 0 || d == 1 || d == 2 || d == 3 || d == 4 || d == 5 || d == 6 || d == 7
        || d == 8 || d == 9 || d == 10 || d == 11 || d == 12 || d == 13 || d == 14 || d == 15;
  }

  lemma {:induction false} QuotientAndRest(q: int, r: int, base: int)
    requires 2 <= base && q > 0 && 0 <= r < base
    ensures (q * base + r) / base == q && (q * base + r) % base == r && q * base + r >= base
  {
    var n := q * base + r;
    AtLeastOnce(q, base);
    var q' := n / base;
    assert n == q' * base + n % base;
    assert (q' - q) * base == r - n % base && (q - q') * base == n % base - r;
    if q' > q {
      AtLeastOnce(q' - q, base);
    } else if q' < q {
      AtLeastOnce(q - q', base);
    }
  }

  lemma {:induction false} AtLeastOnce(k: int, base: int)
    requires k > 0 && base > 0
    ensures k * base >= base
  {
    assert k * base == (k - 1) * base + base;
  }
}
