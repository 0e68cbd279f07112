/** `decodeSecret`: the key of a token, written in the base 32 alphabet of section 6 of RFC 4648, is
    shifted through a 32-bit buffer that is never masked. */
module Base32 {
  import opened Collections
  import opened Arithmetic

  // ----- Bits -------------------------------------------------------------------------------

  function Pow2(k: nat): (r: nat)
    ensures r >= 1
  {
    if k == 0 then 1 else 2 * Pow2(k - 1)
  }

  /** `x >> k` */
  function Shift(x: nat, k: nat): nat {
    if k == 0 then x else Shift(x / 2, k - 1)
  }

  /** The k lowest bits of a number, the highest of them first. */
  function LowBits(x: nat, k: nat): (r: seq<bool>)
    ensures |r| == k
  {
    if k == 0 then [] else LowBits(x / 2, k - 1) + [x % 2 == 1]
  }

  /** The bits of numbers of k bits each, one after the other. */
  function BitsOf(s: seq<nat>, k: nat): seq<bool> {
    if s == [] then [] else BitsOf(s[..|s| - 1], k) + LowBits(s[|s| - 1], k)
  }

  function Value(bits: seq<bool>): nat {
    if bits == [] then 0 else 2 * Value(bits[..|bits| - 1]) + if bits[|bits| - 1] then 1 else 0
  }

  lemma {:induction false} BitsLength(s: seq<nat>)
    ensures |BitsOf(s, 5)| == 5 * |s| && |BitsOf(s, 8)| == 8 * |s|
  {
    if s != [] { BitsLength(s[..|s| - 1]); }
  }

  lemma {:induction false} SplitBits(x: nat, j: nat, k: nat)
    ensures LowBits(x, j + k) == LowBits(Shift(x, k), j) + LowBits(x, k)
    decreases k
  {
    if k > 0 {
      SplitBits(x / 2, j, k - 1);
      assert j + k - 1 == j + (k - 1);
    }
  }

  /** Bits above the lowest k do not matter. */
  lemma {:induction false} MaskedBits(x: nat, m: nat, k: nat)
    requires k <= m
    ensures LowBits(x % Pow2(m), k) == LowBits(x, k)
    decreases k
  {
    if k > 0 {
      HalfOfRest(x, Pow2(m - 1));
      MaskedBits(x / 2, m - 1, k - 1);
    }
  }

  lemma HalfOfRest(x: nat, p: nat)
    requires p > 0
    ensures (x % (2 * p)) / 2 == (x / 2) % p && (x % (2 * p)) % 2 == x % 2
  {
    var q, r := x / (2 * p), x % (2 * p);
    assert x == q * (2 * p) + r && q * (2 * p) == 2 * (q * p);
    assert x / 2 == q * p + r / 2;
    QuotientAndRest(x / 2, q, r / 2, p);
  }

  lemma {:induction false} BitsOfValue(bits: seq<bool>)
    ensures LowBits(Value(bits), |bits|) == bits && Value(bits) < Pow2(|bits|)
  {
    if bits != [] {
      var n := |bits| - 1;
      BitsOfValue(bits[..n]);
      assert Value(bits) / 2 == Value(bits[..n]);
      assert bits == bits[..n] + [bits[n]];
    }
  }

  lemma {:induction false} ValueOfBits(x: nat, k: nat)
    requires x < Pow2(k)
    ensures Value(LowBits(x, k)) == x
    decreases k
  {
    if k > 0 {
      ValueOfBits(x / 2, k - 1);
      assert LowBits(x, k)[..k - 1] == LowBits(x / 2, k - 1);
    }
  }

  // ----- The decoder ------------------------------------------------------------------------

  predicate InAlphabet(ch: char) {
    'A' <= ch <= 'Z' || '2' <= ch <= '7'
  }

  function Digit(ch: char): (d: nat)
    requires InAlphabet(ch)
    ensures d < 32
  {
    if 'A' <= ch <= 'Z' then ch as int % 32 - 1 else ch as int - 24
  }

  ghost predicate AllInAlphabet(s: string) {
    forall i :: 0 <= i < |s| ==> InAlphabet(s[i])
  }

  function Digits(s: string): seq<nat>
    requires AllInAlphabet(s)
  {
    seq(|s|, i requires 0 <= i < |s| => Digit(s[i]))
  }

  /** The whole bytes in the bits of the digits, highest bits first; bits that do not fill a byte are lost. */
  ghost predicate Decodes(s: string, key: seq<nat>) {
    if AllInAlphabet(s) then
      && |key| == 5 * |s| / 8 && AllBytes(key)
      && BitsOf(key, 8) <= BitsOf(Digits(s), 5)
    else key == []
  }

  lemma {:induction false} ShiftBack(x: nat, k: nat, v: nat)
    requires v < Pow2(k)
    ensures Shift(x * Pow2(k) + v, k) == x
    decreases k
  {
    if k == 0 {
      assert x * Pow2(0) + v == x;
    } else {
      var p := Pow2(k - 1);
      assert x * (2 * p) == 2 * (x * p);
      assert (2 * (x * p) + v) / 2 == x * p + v / 2;
      ShiftBack(x, k - 1, v / 2);
    }
  }

  /** `buffer <<= 5; buffer |= v` in 32 bits: what falls off at the top is no longer needed. */
  function Push(buffer: nat, v: nat): nat {
    buffer * 32 % TWO_32 + v
  }

  lemma Pushed(buffer: nat, v: nat, left: nat)
    requires buffer < TWO_32 && v < 32 && left <= 27
    ensures Push(buffer, v) < TWO_32
    ensures LowBits(Push(buffer, v), left + 5) == LowBits(buffer, left) + LowBits(v, 5)
  {
    Pow27();
    LowPart(buffer, v);
    hide LowBits, Shift, Pow2, Push;
    var low, b := buffer % Pow2(27), Push(buffer, v);
    SplitBits(b, left, 5);
    ShiftBack(low, 5, v);
    MaskedBits(b, 5, 5);
    MaskedBits(buffer, 27, left);
  }

  lemma LowPart(buffer: nat, v: nat)
    requires v < 32
    ensures Push(buffer, v) == buffer % Pow2(27) * Pow2(5) + v && Push(buffer, v) < TWO_32
    ensures Push(buffer, v) % Pow2(5) == v
  {
    Pow27();
  }

  lemma Pow27()
    ensures Pow2(27) == 134217728 && Pow2(5) == 32
  {
    assert Pow2(9) == 512;
    assert Pow2(18) == 512 * Pow2(9);
  }

  /** `static_cast<char>(buffer >> left)` */
  function Byte(buffer: nat, left: nat): (b: nat)
    ensures b < 256
  {
    Shift(buffer, left) % 256
  }

  lemma Popped(buffer: nat, left: nat)
    ensures LowBits(buffer, left + 8) == LowBits(Byte(buffer, left), 8) + LowBits(buffer, left)
  {
    SplitBits(buffer, 8, left);
    MaskedBits(Shift(buffer, left), 8, 8);
    assert Pow2(8) == 256;
    assert 8 + left == left + 8;
  }

  lemma BitsMore(s: seq<nat>, x: nat, k: nat)
    ensures BitsOf(s + [x], k) == BitsOf(s, k) + LowBits(x, k)
  {
    assert (s + [x])[..|s|] == s;
  }

  lemma OneMoreDigit(s: string, i: nat)
    requires i < |s| && AllInAlphabet(s[..i]) && InAlphabet(s[i])
    ensures AllInAlphabet(s[..i + 1])
    ensures BitsOf(Digits(s[..i + 1]), 5) == BitsOf(Digits(s[..i]), 5) + LowBits(Digit(s[i]), 5)
  {
    assert Digits(s[..i + 1]) == Digits(s[..i]) + [Digit(s[i])];
    BitsMore(Digits(s[..i]), Digit(s[i]), 5);
  }

  /** The first i characters have been shifted in; the lowest `left` bits of the buffer are still to come. */
  ghost predicate Shifted(s: string, i: nat, key: seq<nat>, buffer: nat, left: nat) {
    && i <= |s| && AllInAlphabet(s[..i]) && buffer < TWO_32 && left < 8 && 8 * |key| + left == 5 * i
    && AllBytes(key)
    && BitsOf(Digits(s[..i]), 5) == BitsOf(key, 8) + LowBits(buffer, left)
  }

  ghost predicate AllBytes(key: seq<nat>) {
    forall k :: 0 <= k < |key| ==> key[k] < 256
  }

  lemma ShiftedNone(s: string)
    ensures Shifted(s, 0, [], 0, 0)
  {
  }

  lemma ShiftedAll(s: string, key: seq<nat>, buffer: nat, left: nat)
    requires Shifted(s, |s|, key, buffer, left)
    ensures Decodes(s, key)
  {
    assert s[..|s|] == s;
    BitsLength(key);
  }

  /** The bits of the key and the buffer when a digit has come in, and when a byte has gone out. */
  lemma BitsIn(bits: seq<bool>, key: seq<nat>, buffer: nat, left: nat, d: nat)
    requires bits == BitsOf(key, 8) + LowBits(buffer, left) && buffer < TWO_32 && d < 32 && left < 8
    ensures bits + LowBits(d, 5) == BitsOf(key, 8) + LowBits(Push(buffer, d), left + 5)
  {
    Pushed(buffer, d, left);
    Assoc(BitsOf(key, 8), LowBits(buffer, left), LowBits(d, 5));
    hide *;
  }

  lemma BitsOut(bits: seq<bool>, key: seq<nat>, buffer: nat, left: nat)
    requires bits == BitsOf(key, 8) + LowBits(buffer, left + 8) && AllBytes(key)
    ensures bits == BitsOf(key + [Byte(buffer, left)], 8) + LowBits(buffer, left)
    ensures AllBytes(key + [Byte(buffer, left)])
  {
    Popped(buffer, left);
    BitsMore(key, Byte(buffer, left), 8);
    Assoc(BitsOf(key, 8), LowBits(Byte(buffer, left), 8), LowBits(buffer, left));
  }

  /** A character has come in. */
  lemma CharIn(s: string, i: nat, key: seq<nat>, buffer: nat, left: nat)
    requires Shifted(s, i, key, buffer, left) && i < |s| && InAlphabet(s[i])
    ensures var b := Push(buffer, Digit(s[i]));
            && b < TWO_32 && AllInAlphabet(s[..i + 1])
            && BitsOf(Digits(s[..i + 1]), 5) == BitsOf(key, 8) + LowBits(b, left + 5)
  {
    var d := Digit(s[i]);
    OneMoreDigit(s, i);
    Pushed(buffer, d, left);
    BitsIn(BitsOf(Digits(s[..i]), 5), key, buffer, left, d);
  }

  lemma ShiftedOn(s: string, i: nat, key: seq<nat>, buffer: nat, left: nat, b: nat, rest: nat)
    requires Shifted(s, i, key, buffer, left) && i < |s| && InAlphabet(s[i]) && b == Push(buffer, Digit(s[i]))
    requires rest == if left + 5 >= 8 then left - 3 else left + 5
    ensures Shifted(s, i + 1, if left + 5 >= 8 then key + [Byte(b, rest)] else key, b, rest)
  {
    CharIn(s, i, key, buffer, left);
    hide LowBits, BitsOf, Digits, Digit, AllInAlphabet, AllBytes, Push, Byte;
    if left >= 3 { BitsOut(BitsOf(Digits(s[..i + 1]), 5), key, b, rest); }
  }

  method ReadDigit(ch: char) returns (ok: bool, d: nat)
    ensures ok <==> InAlphabet(ch)
    ensures ok ==> d == Digit(ch)
  {
    if 'A' <= ch <= 'Z' {
      return true, ch as int % 32 - 1;
    } else if '2' <= ch <= '7' {
      return true, ch as int - 24;
    }
    return false, 0;
  }

  /** The second half of the loop body: the buffer takes a digit in and gives a byte out if it can. */
  method ShiftIn(ghost s: string, ghost i: nat, key0: seq<nat>, buffer0: nat, left0: nat, d: nat)
    returns (key: seq<nat>, buffer: nat, left: nat)
    requires Shifted(s, i, key0, buffer0, left0) && i < |s| && InAlphabet(s[i]) && d == Digit(s[i])
    ensures Shifted(s, i + 1, key, buffer, left)
  {
    key := key0;
    buffer := Push(buffer0, d);
    left := left0 + 5;
    ghost var rest := if left0 + 5 >= 8 then left0 - 3 else left0 + 5;
    assert left0 < 8;
    ShiftedOn(s, i, key0, buffer0, left0, buffer, rest);
    hide *;
    if left >= 8 {
      left := left - 8;
      key := key + [Byte(buffer, left)];
    }
  }

  method DecodeSecret(secret: string) returns (key: seq<nat>)
    ensures Decodes(secret, key)
  {
    key := [];
    var buffer: nat, left: nat := 0, 0;
    ShiftedNone(secret);
    hide *;
    var i := 0;
    while i < |secret|
      invariant 0 <= i <= |secret| && Shifted(secret, i, key, buffer, left)
    {
      var ok, d := ReadDigit(secret[i]);
      if !ok {
        BrokenKey(secret, i);
        return [];
      }
      key, buffer, left := ShiftIn(secret, i, key, buffer, left, d);
      i := i + 1;
    }
    ShiftedAll(secret, key, buffer, left);
  }

  lemma BrokenKey(s: string, i: nat)
    requires i < |s| && !InAlphabet(s[i])
    ensures Decodes(s, [])
  {
  }

  // ----- The encoder ------------------------------------------------------------------------

  function Letter(d: nat): (ch: char)
    requires d < 32
    ensures InAlphabet(ch) && Digit(ch) == d
  {
    if d < 26 then 'A' + d as char else '2' + (d - 26) as char
  }

  function Zeros(n: nat): seq<bool> {
    seq(n, _ => false)
  }

  /** The bits in groups of five, the last one filled up with zeros, each as a letter; no padding. */
  function Letters(bits: seq<bool>): string {
    if bits == [] then ""
    else if |bits| < 5 then
      BitsOfValue(bits + Zeros(5 - |bits|));
      assert Pow2(5) == 32;
      [Letter(Value(bits + Zeros(5 - |bits|)))]
    else
      BitsOfValue(bits[..5]);
      assert Pow2(5) == 32;
      [Letter(Value(bits[..5]))] + Letters(bits[5..])
  }

  /** Section 6 of RFC 4648, without the padding */
  function Encode(bytes: seq<nat>): string {
    Letters(BitsOf(bytes, 8))
  }

  lemma {:induction false} BitsOfFirst(x: nat, s: seq<nat>, k: nat)
    ensures BitsOf([x] + s, k) == LowBits(x, k) + BitsOf(s, k)
  {
    if s == [] {
      BitsMore([], x, k);
      assert [x] + s == [] + [x];
    } else {
      var n := |s| - 1;
      BitsOfFirst(x, s[..n], k);
      assert [x] + s == ([x] + s[..n]) + [s[n]];
      BitsMore([x] + s[..n], s[n], k);
    }
  }

  /** A group of five bits as the first letter */
  lemma GroupFirst(group: seq<bool>, s: string)
    requires |group| == 5 && AllInAlphabet(s)
    ensures Value(group) < 32
    ensures var t := [Letter(Value(group))] + s;
            AllInAlphabet(t) && BitsOf(Digits(t), 5) == group + BitsOf(Digits(s), 5)
  {
    BitsOfValue(group);
    assert Pow2(5) == 32;
    hide BitsOf, LowBits, Value;
    DigitsFirst(Value(group), s);
    BitsOfFirst(Value(group), Digits(s), 5);
  }

  lemma DigitsFirst(d: nat, s: string)
    requires d < 32 && AllInAlphabet(s)
    ensures AllInAlphabet([Letter(d)] + s) && Digits([Letter(d)] + s) == [d] + Digits(s)
  {
  }

  lemma NoBits()
    ensures AllInAlphabet("") && BitsOf(Digits(""), 5) == []
  {
  }

  /** The digits of the encoding have the bits that were encoded, and less than a digit of zeros. */
  lemma {:induction false} LettersHaveBits(bits: seq<bool>)
    ensures var s := Letters(bits);
            && AllInAlphabet(s) && |bits| <= 5 * |s| < |bits| + 5
            && BitsOf(Digits(s), 5) == bits + Zeros(5 * |s| - |bits|)
  {
    NoBits();
    hide BitsOf, Value, LowBits, Digit, Letter, Pow2;
    if bits == [] {
    } else if |bits| < 5 {
      var group := bits + Zeros(5 - |bits|);
      GroupFirst(group, "");
      assert [Letter(Value(group))] + "" == Letters(bits);
    } else {
      LettersHaveBits(bits[5..]);
      GroupFirst(bits[..5], Letters(bits[5..]));
      assert bits[..5] + bits[5..] == bits;
    }
  }

  lemma SameParts(p: seq<bool>, q: seq<bool>, r: seq<bool>, t: seq<bool>)
    requires p + q == r + t && |p| == |r|
    ensures p == r && q == t
  {
    assert p == (p + q)[..|p|] == (r + t)[..|r|] == r;
    assert q == (p + q)[|p|..] == (r + t)[|r|..] == t;
  }

  lemma {:induction false} BitsDecide(a: seq<nat>, b: seq<nat>)
    requires |a| == |b| && BitsOf(a, 8) == BitsOf(b, 8) && AllBytes(a) && AllBytes(b)
    ensures a == b
  {
    if a != [] {
      var n := |a| - 1;
      assert Pow2(8) == 256;
      BitsLength(a[..n]);
      BitsLength(b[..n]);
      SameParts(BitsOf(a[..n], 8), LowBits(a[n], 8), BitsOf(b[..n], 8), LowBits(b[n], 8));
      BitsDecide(a[..n], b[..n]);
      ValueOfBits(a[n], 8);
      ValueOfBits(b[n], 8);
      assert a == a[..n] + [a[n]] && b == b[..n] + [b[n]];
    }
  }

  lemma PrefixesDecide(a: seq<nat>, b: seq<nat>, bits: seq<bool>)
    requires |a| == |b| && AllBytes(a) && AllBytes(b) && BitsOf(a, 8) <= bits && BitsOf(b, 8) <= bits
    ensures a == b
  {
    BitsLength(a);
    BitsLength(b);
    BitsDecide(a, b);
  }

  /** Decoding gives back every byte string that was encoded, and nothing else. */
  lemma DecodeInvertsEncode(bytes: seq<nat>, key: seq<nat>)
    requires forall i :: 0 <= i < |bytes| ==> bytes[i] < 256
    ensures |Encode(bytes)| == (8 * |bytes| + 4) / 5
    ensures Decodes(Encode(bytes), key) <==> key == bytes
  {
    var s := Encode(bytes);
    BitsLength(bytes);
    LettersHaveBits(BitsOf(bytes, 8));
    if Decodes(s, key) {
      PrefixesDecide(key, bytes, BitsOf(Digits(s), 5));
    }
  }

  /** There is one key for every string: none if a character is not in the alphabet, and otherwise the
      whole bytes of its bits, so that all but at most seven bits are told by the key. */
  lemma DecodesOne(s: string, a: seq<nat>, b: seq<nat>)
    requires Decodes(s, a) && Decodes(s, b)
    ensures a == b
    ensures AllInAlphabet(s) ==> 0 <= |BitsOf(Digits(s), 5)| - |BitsOf(a, 8)| < 8
  {
    if AllInAlphabet(s) {
      BitsLength(a);
      BitsLength(Digits(s));
      PrefixesDecide(a, b, BitsOf(Digits(s), 5));
    }
  }
}
