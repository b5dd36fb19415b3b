/** State keys: the fixed record names and the per-swap key "SWAP_<decimal number>". */
module Keys {

  const SwapPrefix: string := "SWAP_"

  /** The names of the contract's singleton records. */
  const ReservedKeys: set<string> :=
    {"OWNER", "FLOATLIST", "FLOATLISTSIZE", "FIXLIST", "FIXLISTSIZE", "SWAPS", "ORDERLIST", "DEFAULTLIST", "PRICE"}

  /** No reserved record name looks like an address key. */
  lemma ReservedKeysAreNotAddresses()
    ensures forall k :: k in ReservedKeys ==> !IsAddressKey(k)
  {
  }

  /** User records live under an address rendered as "0x" followed by hex digits. */
  predicate IsAddressKey(k: string)
  {
    |k| >= 2 && k[0] == '0' && k[1] == 'x'
  }

  predicate IsDigit(c: char)
  {
    '0' <= c <= '9'
  }

  predicate AllDigits(s: string)
  {
    forall i :: 0 <= i < |s| ==> IsDigit(s[i])
  }

  function DigitValue(c: char): (d: nat)
    requires IsDigit(c)
    ensures d < 10
  {
    c as int - '0' as int
  }

  function DigitChar(d: nat): (c: char)
    requires d < 10
    ensures IsDigit(c) && DigitValue(c) == d
  {
    ('0' as int + d) as char
  }

  /** The decimal rendering of a number (`to_string`): digits only, no leading zero. */
  function Decimal(n: nat): (s: string)
    ensures |s| >= 1 && AllDigits(s)
    ensures s[0] == '0' ==> n == 0
    decreases n
  {
    if n < 10 then [DigitChar(n)] else Decimal(n / 10) + [DigitChar(n % 10)]
  }

  /** Reads a string of decimal digits back as a number. */
  function ParseDecimal(s: string): nat
    requires AllDigits(s)
  {
    if s == [] then 0 else 10 * ParseDecimal(s[..|s| - 1]) + DigitValue(s[|s| - 1])
  }

  lemma {:induction false} ParseDecimalOfDecimal(n: nat)
    ensures ParseDecimal(Decimal(n)) == n
    decreases n
  {
    var s := Decimal(n);
    if n >= 10 {
      ParseDecimalOfDecimal(n / 10);
      assert s[..|s| - 1] == Decimal(n / 10);
    }
  }

  /** create_swap_key: "SWAP_" followed by the swap number in decimal. */
  function SwapKey(n: nat): (k: string)
    ensures |k| > |SwapPrefix| && k[..|SwapPrefix|] == SwapPrefix
    ensures AllDigits(k[|SwapPrefix|..])
    ensures k !in ReservedKeys && !IsAddressKey(k)
  {
    var k := SwapPrefix + Decimal(n);
    assert k[..|SwapPrefix|] == SwapPrefix && k[|SwapPrefix|..] == Decimal(n);
    assert k[0] == 'S' && k[1] == 'W';
    k
  }

  /** Distinct swap numbers never share a state key, so swaps may be keyed by number. */
  lemma SwapKeyInjective(m: nat, n: nat)
    ensures SwapKey(m) == SwapKey(n) ==> m == n
  {
    if SwapKey(m) == SwapKey(n) {
      var p := |SwapPrefix|;
      assert SwapKey(m)[p..] == Decimal(m);
      assert SwapKey(n)[p..] == Decimal(n);
      ParseDecimalOfDecimal(m);
      ParseDecimalOfDecimal(n);
    }
  }
}
