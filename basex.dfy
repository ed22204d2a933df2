/**
 * The base-x text stage of the share-link codec (`encode_bytes`,
 * `decode_bytes` over `ALPHABET`).
 *
 * Big-endian radix conversion between bytes and an 80-symbol alphabet, as
 * Base58 does: the bytes are one big number written in base 80, and every
 * leading zero byte is kept as one leading first symbol `A`.
 */
module BaseX {
  import opened Wrappers
  import opened Utf8

  // The alphabet, in the order of the source literal, as its four runs.
  const Upper: string := "ABCDEFGHIJKLMNOPQRSTUVWXYZ"
  const Lower: string := "abcdefghijklmnopqrstuvwxyz"
  const Digits: string := "0123456789"
  const Punctuation: string := "-_.~/:@!$&'()*+,;="

  /** `ALPHABET`: the symbol at index `d` stands for the base-80 digit `d`. */
  const Alphabet: string := Upper + Lower + Digits + Punctuation

  const Base: nat := 80

  /** base_x's only error: a symbol outside the alphabet. */
  datatype DecodeError = InvalidSymbol

  // ---------------------------------------------------------------------
  // The alphabet

  lemma UpperFacts()
    ensures |Upper| == 26
    ensures forall i :: 0 <= i < |Upper| ==> Upper[i] as int == 'A' as int + i
  {
  }

  lemma LowerFacts()
    ensures |Lower| == 26
    ensures forall i :: 0 <= i < |Lower| ==> Lower[i] as int == 'a' as int + i
  {
  }

  lemma DigitsFacts()
    ensures |Digits| == 10
    ensures forall i :: 0 <= i < |Digits| ==> Digits[i] as int == '0' as int + i
  {
  }

  lemma PunctuationFacts()
    ensures |Punctuation| == 18
    ensures forall c :: c in Punctuation ==>
              !('A' <= c <= 'Z') && !('a' <= c <= 'z') && !('0' <= c <= '9') && c != '#' && c != '%'
    ensures forall i, j :: 0 <= i < j < |Punctuation| ==> Punctuation[i] != Punctuation[j]
  {
  }

  /** Which run holds position `i` of `ALPHABET`. */
  lemma AlphabetAt(i: int)
    requires 0 <= i < 80
    ensures |Alphabet| == 80
    ensures i < 26 ==> Alphabet[i] == Upper[i]
    ensures 26 <= i < 52 ==> Alphabet[i] == Lower[i - 26]
    ensures 52 <= i < 62 ==> Alphabet[i] == Digits[i - 52]
    ensures 62 <= i ==> Alphabet[i] == Punctuation[i - 62]
  {
    UpperFacts(); LowerFacts(); DigitsFacts(); PunctuationFacts();
  }

  /** The symbol at a position, as a code point range or a punctuation mark. */
  lemma AlphabetSymbol(i: int)
    requires 0 <= i < 80
    ensures |Alphabet| == 80
    ensures i < 26 ==> Alphabet[i] as int == 'A' as int + i
    ensures 26 <= i < 52 ==> Alphabet[i] as int == 'a' as int + (i - 26)
    ensures 52 <= i < 62 ==> Alphabet[i] as int == '0' as int + (i - 52)
    ensures 62 <= i ==> Alphabet[i] in Punctuation
  {
    AlphabetAt(i);
    UpperFacts(); LowerFacts(); DigitsFacts();
  }

  /** `ALPHABET` has 80 symbols, 'A' first, and needs no escaping in a URL fragment. */
  lemma AlphabetShape()
    ensures |Alphabet| == Base
    ensures Alphabet[0] == 'A'
    ensures '#' !in Alphabet && '%' !in Alphabet
  {
    AlphabetAt(0);
    UpperFacts();
    PunctuationFacts();
    forall i | 0 <= i < |Alphabet| ensures Alphabet[i] != '#' && Alphabet[i] != '%' {
      AlphabetSymbol(i);
    }
  }

  /** No two positions of `ALPHABET` hold the same symbol. */
  lemma AlphabetDistinct()
    ensures forall i, j :: 0 <= i < j < |Alphabet| ==> Alphabet[i] != Alphabet[j]
  {
    forall i, j | 0 <= i < j < |Alphabet| ensures Alphabet[i] != Alphabet[j] {
      AlphabetSymbol(i);
      AlphabetSymbol(j);
      PunctuationFacts();
      if 62 <= i {
        AlphabetAt(i);
        AlphabetAt(j);
      }
    }
  }

  // ---------------------------------------------------------------------
  // Radix conversion

  function Repeat<T>(x: T, n: nat): (r: seq<T>)
    ensures |r| == n && forall i :: 0 <= i < n ==> r[i] == x
  {
    if n == 0 then [] else Repeat(x, n - 1) + [x]
  }

  /** `n` zero bytes. */
  function Zeros(n: nat): (r: seq<byte>)
    ensures |r| == n && forall i :: 0 <= i < n ==> r[i] == 0
  {
    Repeat(0, n)
  }

  /** How many copies of `x` the sequence starts with. */
  function CountLeading<T(==)>(s: seq<T>, x: T): (n: nat)
    ensures n <= |s|
    ensures forall i :: 0 <= i < n ==> s[i] == x
    ensures n < |s| ==> s[n] != x
  {
    if s == [] || s[0] != x then 0 else 1 + CountLeading(s[1..], x)
  }

  /** The number that a big-endian digit string spells in `base`. */
  function Value(ds: seq<nat>, base: nat): nat
  {
    if ds == [] then 0 else Value(ds[..|ds| - 1], base) * base + ds[|ds| - 1]
  }

  /** The big-endian digits of `n` in `base`, without leading zeros (none for zero). */
  function ToDigits(n: nat, base: nat): (ds: seq<nat>)
    requires base >= 2
    ensures forall i :: 0 <= i < |ds| ==> ds[i] < base
    ensures n > 0 <==> ds != []
  {
    if n == 0 then [] else ToDigits(n / base, base) + [n % base]
  }

  ghost predicate IsDigits(ds: seq<nat>, base: nat)
  {
    forall i :: 0 <= i < |ds| ==> ds[i] < base
  }

  /** Appending a digit multiplies by the base and adds the digit. */
  lemma ValueSnoc(ds: seq<nat>, d: nat, base: nat)
    ensures Value(ds + [d], base) == Value(ds, base) * base + d
  {
    assert (ds + [d])[..|ds|] == ds;
  }

  lemma {:induction false} ValueOfToDigits(n: nat, base: nat)
    requires base >= 2
    ensures Value(ToDigits(n, base), base) == n
  {
    if n > 0 {
      var q, r := n / base, n % base;
      DivMod(n, base);
      ValueOfToDigits(q, base);
      ValueSnoc(ToDigits(q, base), r, base);
      assert n == q * base + r;
    }
  }

  lemma {:induction false} ValuePositive(ds: seq<nat>, base: nat)
    requires base >= 2
    requires ds != [] && ds[0] != 0
    ensures Value(ds, base) > 0
  {
    var init := ds[..|ds| - 1];
    if init != [] {
      assert init[0] == ds[0];
      ValuePositive(init, base);
    }
  }

  lemma DivMod(n: nat, base: nat)
    requires base >= 2
    ensures n == (n / base) * base + n % base
    ensures n > 0 ==> n / base < n
  {
  }

  lemma DivModOfSnoc(v: nat, d: nat, base: nat)
    requires d < base
    ensures (v * base + d) / base == v && (v * base + d) % base == d
  {
    var n := v * base + d;
    var q, r := n / base, n % base;
    assert n == q * base + r && 0 <= r < base;
    assert (q - v) * base == d - r;
    if q > v {
      MulAtLeast(q - v, base);
    } else if q < v {
      MulAtLeast(v - q, base);
    }
  }

  lemma {:induction false} MulAtLeast(k: nat, base: nat)
    requires k >= 1
    ensures k * base >= base
  {
    if k > 1 {
      MulAtLeast(k - 1, base);
      assert k * base == (k - 1) * base + base;
    }
  }

  /** Digit strings without a leading zero are exactly the `ToDigits` of their value. */
  lemma {:induction false} ToDigitsOfValue(ds: seq<nat>, base: nat)
    requires base >= 2 && IsDigits(ds, base)
    requires ds != [] ==> ds[0] != 0
    ensures ToDigits(Value(ds, base), base) == ds
  {
    if ds != [] {
      var init, last := ds[..|ds| - 1], ds[|ds| - 1];
      assert ds == init + [last];
      if init != [] {
        assert init[0] == ds[0];
        ValuePositive(ds, base);
      }
      var v := Value(init, base);
      ValueSnoc(init, last, base);
      DivModOfSnoc(v, last, base);
      ToDigitsOfValue(init, base);
    }
  }

  /** Leading zero digits do not change the value. */
  lemma {:induction false} ValueLeadingZeros(z: nat, ds: seq<nat>, base: nat)
    ensures Value(Zeros(z) + ds, base) == Value(ds, base)
  {
    var zs := Zeros(z);
    if ds == [] {
      ValueOfZeros(z, base);
      assert zs + ds == zs;
    } else {
      var init := ds[..|ds| - 1];
      assert (zs + ds)[..|zs + ds| - 1] == zs + init;
      ValueLeadingZeros(z, init, base);
    }
  }

  lemma {:induction false} ValueOfZeros(z: nat, base: nat)
    ensures Value(Zeros(z), base) == 0
  {
    if z > 0 {
      assert Zeros(z)[..z - 1] == Zeros(z - 1);
      ValueOfZeros(z - 1, base);
    }
  }

  // ---------------------------------------------------------------------
  // Symbols of an alphabet (base_x is generic in the alphabet, and so is this part)

  ghost predicate Distinct(alpha: string)
  {
    forall i, j :: 0 <= i < j < |alpha| ==> alpha[i] != alpha[j]
  }

  ghost predicate InAlphabet(alpha: string, s: string)
  {
    forall i :: 0 <= i < |s| ==> s[i] in alpha
  }

  /** The position of `c` in `s` (the first one). */
  function IndexOf(s: string, c: char): (k: nat)
    requires c in s
    ensures k < |s| && s[k] == c
    ensures forall i :: 0 <= i < k ==> s[i] != c
  {
    if s[0] == c then 0 else 1 + IndexOf(s[1..], c)
  }

  lemma IndexOfDigit(alpha: string, d: nat)
    requires Distinct(alpha) && d < |alpha|
    ensures IndexOf(alpha, alpha[d]) == d
  {
  }

  /** Digits as symbols. */
  function Symbols(alpha: string, ds: seq<nat>): (s: string)
    requires forall i :: 0 <= i < |ds| ==> ds[i] < |alpha|
    ensures |s| == |ds|
    ensures forall i :: 0 <= i < |ds| ==> s[i] == alpha[ds[i]]
  {
    seq(|ds|, i requires 0 <= i < |ds| => alpha[ds[i]])
  }

  /** Symbols as digits: base_x's reverse lookup table. */
  function SymbolDigits(alpha: string, s: string): (ds: seq<nat>)
    requires InAlphabet(alpha, s)
    ensures |ds| == |s|
    ensures forall i :: 0 <= i < |s| ==> ds[i] < |alpha| && ds[i] == IndexOf(alpha, s[i])
  {
    seq(|s|, i requires 0 <= i < |s| => IndexOf(alpha, s[i]))
  }

  /** How many leader symbols `encode` writes: one per leading zero byte, all but the last byte. */
  function Leaders(data: seq<byte>): nat
    requires data != []
  {
    var z := CountLeading(data, 0);
    if z < |data| then z else |data| - 1
  }

  /** The digits `encode` writes: at least one, so a zero value still yields one digit. */
  function EncodeDigits(v: nat, base: nat): (ds: seq<nat>)
    requires base >= 2
    ensures ds != [] && forall i :: 0 <= i < |ds| ==> ds[i] < base
  {
    if v == 0 then [0] else ToDigits(v, base)
  }

  /** base_x `encode(alpha, data)`. */
  function Encode(alpha: string, data: seq<byte>): (s: string)
    requires |alpha| >= 2
    ensures data == [] <==> s == []
    ensures InAlphabet(alpha, s)
  {
    if data == [] then []
    else
      var z, ds := Leaders(data), EncodeDigits(Value(data, 256), |alpha|);
      SymbolsInAlphabet(alpha, z, ds);
      Repeat(alpha[0], z) + Symbols(alpha, ds)
  }

  /** base_x `decode(alpha, s)`. */
  function Decode(alpha: string, s: string): (r: Result<seq<byte>, DecodeError>)
    requires |alpha| >= 2
    ensures r.Err? <==> exists i :: 0 <= i < |s| && s[i] !in alpha
  {
    if s == [] then Ok([])
    else if exists i :: 0 <= i < |s| && s[i] !in alpha then Err(InvalidSymbol)
    else Ok(Zeros(CountLeading(s, alpha[0])) + ToDigits(Value(SymbolDigits(alpha, s), |alpha|), 256))
  }

  lemma SymbolsInAlphabet(alpha: string, z: nat, ds: seq<nat>)
    requires |alpha| >= 2
    requires forall i :: 0 <= i < |ds| ==> ds[i] < |alpha|
    ensures InAlphabet(alpha, Repeat(alpha[0], z) + Symbols(alpha, ds))
  {
    var lead, sym := Repeat(alpha[0], z), Symbols(alpha, ds);
    var s := lead + sym;
    forall i | 0 <= i < |s| ensures s[i] in alpha {
      if i >= z { assert s[i] == sym[i - z]; }
    }
  }

  lemma SymbolDigitsOfSymbols(alpha: string, z: nat, ds: seq<nat>)
    requires Distinct(alpha) && |alpha| >= 2
    requires forall i :: 0 <= i < |ds| ==> ds[i] < |alpha|
    ensures InAlphabet(alpha, Repeat(alpha[0], z) + Symbols(alpha, ds))
    ensures SymbolDigits(alpha, Repeat(alpha[0], z) + Symbols(alpha, ds)) == Zeros(z) + ds
  {
    SymbolsInAlphabet(alpha, z, ds);
    var s := Repeat(alpha[0], z) + Symbols(alpha, ds);
    var got, want := SymbolDigits(alpha, s), Zeros(z) + ds;
    forall i | 0 <= i < |s| ensures got[i] == want[i] {
      if i < z {
        IndexOfDigit(alpha, 0);
      } else {
        assert s[i] == alpha[ds[i - z]];
        IndexOfDigit(alpha, ds[i - z]);
      }
    }
  }

  lemma CountLeadingPrefix<T>(x: T, z: nat, t: seq<T>)
    requires t != [] ==> t[0] != x
    ensures CountLeading(Repeat(x, z) + t, x) == z
  {
    var s := Repeat(x, z) + t;
    assert z < |s| ==> s[z] == t[0];
  }

  lemma {:induction false} ToDigitsFirst(n: nat, base: nat)
    requires base >= 2
    requires n > 0
    ensures ToDigits(n, base)[0] != 0
  {
    DivMod(n, base);
    if n / base > 0 {
      ToDigitsFirst(n / base, base);
    }
  }

  /** What `decode` computes on a non-empty string of alphabet symbols. */
  lemma DecodeOfSymbols(alpha: string, s: string, z: nat, t: seq<byte>)
    requires |alpha| >= 2 && s != [] && InAlphabet(alpha, s)
    requires CountLeading(s, alpha[0]) == z
    requires ToDigits(Value(SymbolDigits(alpha, s), |alpha|), 256) == t
    ensures Decode(alpha, s) == Ok(Zeros(z) + t)
  {
  }

  /** The all-zero case: `n` leaders decode to `n` zero bytes. */
  lemma DecodeOfLeaders(alpha: string, n: nat)
    requires Distinct(alpha) && |alpha| >= 2
    requires n >= 1
    ensures Decode(alpha, Repeat(alpha[0], n - 1) + Symbols(alpha, [0])) == Ok(Zeros(n))
  {
    var s := Repeat(alpha[0], n - 1) + Symbols(alpha, [0]);
    assert s == Repeat(alpha[0], n) + [] by {
      assert Symbols(alpha, [0]) == [alpha[0]];
    }
    assert SymbolDigits(alpha, s) == Zeros(n) by {
      SymbolDigitsOfSymbols(alpha, n - 1, [0]);
      assert Zeros(n - 1) + [0] == Zeros(n);
    }
    assert Value(SymbolDigits(alpha, s), |alpha|) == 0 by {
      ValueOfZeros(n, |alpha|);
    }
    CountLeadingPrefix(alpha[0], n, []);
    DecodeOfSymbols(alpha, s, n, []);
    assert Zeros(n) + [] == Zeros(n);
  }

  /** The general case: `z` leaders, then the digits of a number whose bytes start non-zero. */
  lemma DecodeOfLeadersAndDigits(alpha: string, z: nat, t: seq<byte>)
    requires Distinct(alpha) && |alpha| >= 2
    requires t != [] && t[0] != 0
    ensures Decode(alpha, Repeat(alpha[0], z) + Symbols(alpha, ToDigits(Value(t, 256), |alpha|)))
            == Ok(Zeros(z) + t)
  {
    var base, v := |alpha|, Value(t, 256);
    ValuePositive(t, 256);
    var ds := ToDigits(v, base);
    var s := Repeat(alpha[0], z) + Symbols(alpha, ds);
    SymbolDigitsOfSymbols(alpha, z, ds);
    ValueLeadingZeros(z, ds, base);
    ValueOfToDigits(v, base);
    // the first digit is not zero, so the first symbol after the leaders is not the leader
    ToDigitsFirst(v, base);
    assert Symbols(alpha, ds)[0] != alpha[0];
    CountLeadingPrefix(alpha[0], z, Symbols(alpha, ds));
    ToDigitsOfValue(t, 256);
    DecodeOfSymbols(alpha, s, z, t);
  }

  /** `encode` of `n` zero bytes: `n - 1` leaders and the single digit zero. */
  lemma EncodeOfZeros(alpha: string, data: seq<byte>)
    requires |alpha| >= 2
    requires data != [] && CountLeading(data, 0) == |data|
    ensures Encode(alpha, data) == Repeat(alpha[0], |data| - 1) + Symbols(alpha, [0])
  {
    assert data == Zeros(|data|);
    ValueOfZeros(|data|, 256);
  }

  /** `encode` of `z` zero bytes and then a payload starting non-zero: `z` leaders and the payload's digits. */
  lemma EncodeOfPayload(alpha: string, data: seq<byte>, z: nat)
    requires |alpha| >= 2
    requires CountLeading(data, 0) == z < |data|
    ensures data[z] != 0
    ensures Encode(alpha, data) == Repeat(alpha[0], z) + Symbols(alpha, ToDigits(Value(data[z..], 256), |alpha|))
  {
    var t := data[z..];
    assert data == Zeros(z) + t;
    ValueLeadingZeros(z, t, 256);
    ValuePositive(t, 256);
  }

  /** Over an alphabet of distinct symbols, decoding undoes encoding. */
  lemma DecodeOfEncode(alpha: string, data: seq<byte>)
    requires Distinct(alpha) && |alpha| >= 2
    ensures Decode(alpha, Encode(alpha, data)) == Ok(data)
  {
    if data != [] {
      var z := CountLeading(data, 0);
      assert data == Zeros(z) + data[z..];
      if z == |data| {
        EncodeOfZeros(alpha, data);
        DecodeOfLeaders(alpha, |data|);
      } else {
        EncodeOfPayload(alpha, data, z);
        DecodeOfLeadersAndDigits(alpha, z, data[z..]);
      }
    }
  }

  // ---------------------------------------------------------------------
  // The share-link alphabet

  /** `encode_bytes(data)`: base_x over `ALPHABET`. */
  function EncodeBytes(data: seq<byte>): (s: string)
    ensures data == [] <==> s == []
    ensures InAlphabet(Alphabet, s)
  {
    AlphabetShape();
    Encode(Alphabet, data)
  }

  /** `decode_bytes(s)`: base_x over `ALPHABET`. */
  function DecodeBytes(s: string): (r: Result<seq<byte>, DecodeError>)
    ensures r.Err? <==> exists i :: 0 <= i < |s| && s[i] !in Alphabet
    ensures s == [] ==> r == Ok([])
  {
    AlphabetShape();
    Decode(Alphabet, s)
  }

  /** Every string `encode_bytes` produces uses only `ALPHABET` symbols, hence no '#' and no '%'. */
  lemma EncodeBytesInAlphabet(data: seq<byte>)
    ensures InAlphabet(Alphabet, EncodeBytes(data))
    ensures '#' !in EncodeBytes(data) && '%' !in EncodeBytes(data)
  {
    AlphabetShape();
    var s := EncodeBytes(data);
    assert forall i :: 0 <= i < |s| ==> s[i] in Alphabet;
  }

  /** `decode_bytes(encode_bytes(d)) == Ok(d)` for every byte string `d`. */
  lemma DecodeBytesOfEncodeBytes(data: seq<byte>)
    ensures DecodeBytes(EncodeBytes(data)) == Ok(data)
  {
    AlphabetShape();
    AlphabetDistinct();
    DecodeOfEncode(Alphabet, data);
  }

  /** `decode_bytes` fails exactly on the strings holding a symbol outside `ALPHABET`, such as '#'. */
  lemma DecodeBytesRejects(s: string)
    ensures DecodeBytes(s).Err? <==> exists i :: 0 <= i < |s| && s[i] !in Alphabet
    ensures '#' in s ==> DecodeBytes(s) == Err(InvalidSymbol)
  {
    AlphabetShape();
    if '#' in s {
      var i :| 0 <= i < |s| && s[i] == '#';
    }
  }
}
