/** Text renderings used by the certificate attributes: the colon-delimited hex
    form (`delimit`), the byte-to-hex conversion it is applied to, the base-16
    rendering of a serial number and the decimal rendering of a version. */
module Hex {

  newtype byte = x: int | 0 <= x < 256

  const HexDigits: string := "0123456789abcdef"

  /** No character of `s` is a colon. */
  predicate NoColon(s: string)
  {
    forall k :: 0 <= k < |s| ==> s[k] != ':'
  }

  /** `digits` with one leading '0' when its length is odd. */
  function Padded(digits: string): (p: string)
    ensures |p| == |digits| + (if |digits| % 2 != 0 then 1 else 0) && |p| % 2 == 0
  {
    if |digits| % 2 != 0 then "0" + digits else digits
  }

  /** Digit pairs of `p`, from the front, joined by ':'. */
  function Grouped(p: string): string
    decreases |p|
  {
    if |p| <= 2 then p else p[..2] + ":" + Grouped(p[2..])
  }

  /** What `delimit` produces for the digit string `digits`. */
  function Delimited(digits: string): string
  {
    Grouped(Padded(digits))
  }

  /** `s` with every ':' removed. */
  function Strip(s: string): string
  {
    if s == [] then [] else (if s[0] == ':' then [] else [s[0]]) + Strip(s[1..])
  }

  lemma {:induction false} StripConcat(a: string, b: string)
    ensures Strip(a + b) == Strip(a) + Strip(b)
    decreases |a|
  {
    if a == [] {
      assert a + b == b;
    } else {
      assert (a + b)[0] == a[0];
      assert (a + b)[1..] == a[1..] + b;
      StripConcat(a[1..], b);
    }
  }

  lemma {:induction false} StripNoColon(s: string)
    requires NoColon(s)
    ensures Strip(s) == s
    decreases |s|
  {
    if s != [] {
      StripNoColon(s[1..]);
    }
  }

  /** Grouping an even-length string adds one colon per pair but the last. */
  lemma {:induction false} GroupedLength(p: string)
    requires |p| % 2 == 0
    ensures |Grouped(p)| == if |p| == 0 then 0 else |p| + |p| / 2 - 1
    decreases |p|
  {
    if |p| > 2 {
      GroupedLength(p[2..]);
    }
  }

  /** Past the first pair and its colon, a grouped string continues as the
      grouping of the rest. */
  lemma GroupedShift(p: string, k: nat)
    requires |p| > 2 && 3 <= k < |Grouped(p)|
    ensures k - 3 < |Grouped(p[2..])| && Grouped(p)[k] == Grouped(p[2..])[k - 3]
  {
    assert Grouped(p) == p[..2] + ":" + Grouped(p[2..]);
  }

  lemma ThirdsShift(k: nat)
    requires k >= 3
    ensures (k - 3) % 3 == k % 3 && (k - 3) - (k - 3) / 3 + 2 == k - k / 3
  {
    assert (k - 3) / 3 == k / 3 - 1;
  }

  /** Which character sits at position k of a grouped even-length string: a
      colon at every third place, the digits in order elsewhere. */
  lemma {:induction false} GroupedIndex(p: string, k: nat)
    requires |p| % 2 == 0 && k < |Grouped(p)|
    ensures k - k / 3 < |p|
    ensures Grouped(p)[k] == if k % 3 == 2 then ':' else p[k - k / 3]
    decreases |p|
  {
    if |p| <= 2 {
      assert Grouped(p) == p;
    } else if k < 3 {
      assert Grouped(p) == p[..2] + ":" + Grouped(p[2..]);
    } else {
      GroupedShift(p, k);
      GroupedIndex(p[2..], k - 3);
      ThirdsShift(k);
      assert p[2..][(k - 3) - (k - 3) / 3] == p[k - k / 3];
    }
  }

  lemma GroupedAt(p: string)
    requires |p| % 2 == 0
    ensures |Grouped(p)| == if |p| == 0 then 0 else |p| + |p| / 2 - 1
    ensures forall k :: 0 <= k < |Grouped(p)| ==>
              Grouped(p)[k] == if k % 3 == 2 then ':' else p[k - k / 3]
  {
    GroupedLength(p);
    forall k | 0 <= k < |Grouped(p)|
      ensures Grouped(p)[k] == if k % 3 == 2 then ':' else p[k - k / 3]
    {
      GroupedIndex(p, k);
    }
  }

  lemma {:induction false} StripGrouped(p: string)
    requires NoColon(p)
    ensures Strip(Grouped(p)) == p
    decreases |p|
  {
    if |p| <= 2 {
      StripNoColon(p);
    } else {
      StripGrouped(p[2..]);
      StripConcat(p[..2] + ":", Grouped(p[2..]));
      StripConcat(p[..2], ":");
      StripNoColon(p[..2]);
      assert p[..2] + p[2..] == p;
    }
  }

  /** Padding keeps the digits after at most one '0', gives an even length,
      and adds no colon. */
  lemma PaddedFacts(digits: string)
    requires NoColon(digits)
    ensures var p := Padded(digits);
            && |p| % 2 == 0 && NoColon(p)
            && (|digits| % 2 != 0 ==> p == "0" + digits && p[0] == '0')
            && (|digits| % 2 == 0 ==> p == digits)
  {
    var p := Padded(digits);
    if |digits| % 2 != 0 {
      forall k | 0 <= k < |p| ensures p[k] != ':' {
        if k > 0 { assert p[k] == digits[k - 1]; }
      }
    }
  }

  /** The last position of a grouped string of even length n > 0 is the second
      digit of a pair. */
  lemma LastGroupedPosition(n: nat)
    requires n % 2 == 0 && n > 0
    ensures (n + n / 2 - 2) % 3 == 1
  {
    assert n + n / 2 - 2 == 3 * (n / 2 - 1) + 1;
  }

  /** The padding rule of `delimit`: an odd-length digit string gets exactly
      one leading '0' and an even-length one none; removing the colons gives
      the padded digits back, none dropped or reordered. */
  lemma DelimitedPadding(digits: string)
    requires NoColon(digits)
    ensures |digits| % 2 != 0 ==> Strip(Delimited(digits)) == "0" + digits && Delimited(digits)[0] == '0'
    ensures |digits| % 2 == 0 ==> Strip(Delimited(digits)) == digits
  {
    var p := Padded(digits);
    PaddedFacts(digits);
    StripGrouped(p);
    if |digits| % 2 != 0 {
      GroupedIndex(p, 0);
    }
  }

  /** The shape of `delimit`'s output: a colon exactly at every third
      position, the padded digits in order at all others, so no leading or
      trailing colon, and length n + n/2 - 1 for a padded length n > 0. */
  lemma DelimitedShape(digits: string)
    requires NoColon(digits)
    ensures var p := Padded(digits); var d := Delimited(digits);
            && |d| == (if |p| == 0 then 0 else |p| + |p| / 2 - 1)
            && (forall k :: 0 <= k < |d| ==> d[k] == if k % 3 == 2 then ':' else p[k - k / 3])
            && (|d| > 0 ==> d[0] != ':' && d[|d| - 1] != ':')
  {
    var p := Padded(digits);
    PaddedFacts(digits);
    GroupedAt(p);
    var d := Delimited(digits);
    if |d| > 0 {
      var last := |d| - 1;
      LastGroupedPosition(|p|);
      GroupedIndex(p, 0);
      GroupedIndex(p, last);
    }
  }

  /** The empty digit string delimits to the empty string. */
  lemma DelimitedEmpty()
    ensures Delimited("") == ""
  {
  }

  /** What `delimit` still has to append once the first j padded digits are
      written: each digit in turn, followed by a colon when its position is odd
      and it is not the last. */
  function Remaining(p: string, j: nat): string
    requires j <= |p|
    decreases |p| - j
  {
    if j == |p| then []
    else [p[j]] + (if j % 2 == 1 && j + 1 < |p| then ":" else []) + Remaining(p, j + 1)
  }

  lemma EvenGap(n: nat, j: nat)
    requires n % 2 == 0 && j % 2 == 0 && j < n
    ensures j + 2 <= n && (j + 2) % 2 == 0
  {
  }

  /** Two steps from an even position: a whole pair, then a colon unless it
      was the last pair. */
  lemma RemainingPair(p: string, j: nat)
    requires j + 2 <= |p| && j % 2 == 0
    ensures Remaining(p, j) == [p[j], p[j + 1]] + (if j + 2 < |p| then ":" else []) + Remaining(p, j + 2)
  {
    assert (j + 1) % 2 == 1;
    assert Remaining(p, j + 1) == [p[j + 1]] + (if j + 2 < |p| then ":" else []) + Remaining(p, j + 2);
  }

  /** Grouping takes off one pair, then a colon unless nothing follows. */
  lemma GroupedPair(q: string)
    requires |q| >= 2
    ensures Grouped(q) == q[..2] + (if |q| > 2 then ":" else []) + Grouped(q[2..])
  {
    if |q| == 2 {
      assert q[..2] == q && q[2..] == [];
    }
  }

  /** From an even position on, what the loop appends is the grouping of the
      rest: the loop and `Grouped` agree. */
  lemma {:induction false} RemainingGrouped(p: string, j: nat)
    requires |p| % 2 == 0 && j <= |p| && j % 2 == 0
    ensures Remaining(p, j) == Grouped(p[j..])
    decreases |p| - j
  {
    if j < |p| {
      EvenGap(|p|, j);
      var q := p[j..];
      var colon: string := if j + 2 < |p| then ":" else [];
      RemainingPair(p, j);
      RemainingGrouped(p, j + 2);
      GroupedPair(q);
      assert q[..2] == [p[j], p[j + 1]] && q[2..] == p[j + 2..];
      assert Remaining(p, j) == [p[j], p[j + 1]] + colon + Grouped(p[j + 2..]);
    }
  }

  /** What remains after `pad` leading zeros and i input digits, in the input's
      terms: digit i, then a colon when the offset test of the loop places one,
      then what remains after it. */
  lemma RemainingAtInput(p: string, chars: string, pad: nat, i: nat)
    requires |p| == |chars| + pad && i < |chars|
    requires forall k :: 0 <= k < |chars| ==> p[k + pad] == chars[k]
    ensures Remaining(p, i + pad) ==
              [chars[i]] + (if i + 1 < |chars| && (i + pad + 1) % 2 == 0 then ":" else []) + Remaining(p, i + pad + 1)
  {
    var j := i + pad;
    assert p[j] == chars[i];
    assert j % 2 == 1 <==> (i + pad + 1) % 2 == 0;
  }

  /** One iteration of the loop of `delimit`: appending digit i and then a
      colon when the offset test places one keeps `sb` followed by what
      remains equal to the same `target`. */
  lemma DelimitStep(chars: string, pad: nat, i: nat, sb: string, sb': string, target: string)
    requires pad == (if |chars| % 2 != 0 then 1 else 0) && i < |chars|
    requires sb + Remaining(Padded(chars), i + pad) == target
    requires sb' == sb + [chars[i]] + (if i + 1 < |chars| && (i + pad + 1) % 2 == 0 then ":" else [])
    ensures sb' + Remaining(Padded(chars), i + pad + 1) == target
  {
    var p := Padded(chars);
    PaddedDigits(chars, pad);
    RemainingAtInput(p, chars, pad, i);
    var colon: string := if i + 1 < |chars| && (i + pad + 1) % 2 == 0 then ":" else [];
    ConcatAssoc(sb, [chars[i]], colon, Remaining(p, i + pad + 1));
  }

  lemma ConcatAssoc(a: string, b: string, c: string, d: string)
    ensures a + b + c + d == a + (b + c + d)
  {
  }

  /** The padded digits are the input after `pad` zeros. */
  lemma PaddedDigits(chars: string, pad: nat)
    requires pad == (if |chars| % 2 != 0 then 1 else 0)
    ensures forall k :: 0 <= k < |chars| ==> Padded(chars)[k + pad] == chars[k]
  {
  }

  /** Before the loop of `delimit`: the zero written for an odd input followed
      by all that remains is the whole output. */
  lemma DelimitStart(chars: string, pad: nat)
    requires pad == (if |chars| % 2 != 0 then 1 else 0)
    ensures (if pad == 1 then ['0'] else []) + Remaining(Padded(chars), pad) == Delimited(chars)
  {
    var p := Padded(chars);
    RemainingGrouped(p, 0);
    assert p[0..] == p;
    if pad == 1 {
      assert p[0] == '0';
    }
  }

  /** The loop of `delimit`: append each digit, preceded by one '0' when the
      count is odd, and a ':' after every second padded digit except the last. */
  method Delimit(chars: string) returns (s: string)
    ensures s == Delimited(chars)
  {
    var sb: string := [];
    var offset := 1;
    if |chars| % 2 != 0 {
      sb := sb + ['0'];
      offset := offset + 1;
    }
    ghost var pad: nat := offset - 1;
    ghost var p := Padded(chars);
    ghost var target := Delimited(chars);
    DelimitStart(chars, pad);
    for i := 0 to |chars|
      invariant offset == pad + 1
      invariant sb + Remaining(p, i + pad) == target
    {
      ghost var before := sb;
      sb := sb + [chars[i]];
      if i + 1 < |chars| && (i + offset) % 2 == 0 {
        sb := sb + [':'];
      }
      DelimitStep(chars, pad, i, before, sb, target);
    }
    s := sb;
  }

  /** Two lower-case hex digits per byte, high nibble first (HexConverter). */
  function ToHex(bytes: seq<byte>): (s: string)
    ensures |s| == 2 * |bytes|
  {
    if bytes == [] then []
    else [HexDigits[bytes[0] as int / 16], HexDigits[bytes[0] as int % 16]] + ToHex(bytes[1..])
  }

  /** The value of a lower-case hex digit. */
  function DigitValue(c: char): nat
  {
    if '0' <= c <= '9' then (c - '0') as nat
    else if 'a' <= c <= 'f' then (c - 'a') as nat + 10
    else 0
  }

  /** Reads hex digit pairs back into bytes: the inverse of `ToHex`. */
  function FromHex(s: string): seq<byte>
    decreases |s|
  {
    if |s| < 2 then []
    else [((DigitValue(s[0]) * 16 + DigitValue(s[1])) % 256) as byte] + FromHex(s[2..])
  }

  lemma DigitValueOf(n: nat)
    requires n < 16
    ensures DigitValue(HexDigits[n]) == n && HexDigits[n] != ':'
  {
  }

  /** One byte: its two digits are not colons and read back to the byte. */
  lemma HexPairRoundTrip(b: byte)
    ensures var hi := HexDigits[b as int / 16]; var lo := HexDigits[b as int % 16];
            && hi != ':' && lo != ':'
            && ((DigitValue(hi) * 16 + DigitValue(lo)) % 256) as byte == b
  {
    DigitValueOf(b as int / 16);
    DigitValueOf(b as int % 16);
  }

  lemma FromHexCons(hi: char, lo: char, rest: string)
    ensures FromHex([hi, lo] + rest) == [((DigitValue(hi) * 16 + DigitValue(lo)) % 256) as byte] + FromHex(rest)
  {
    var s := [hi, lo] + rest;
    assert s[2..] == rest;
  }

  lemma NoColonCons(hi: char, lo: char, rest: string)
    requires hi != ':' && lo != ':' && NoColon(rest)
    ensures NoColon([hi, lo] + rest)
  {
    var s := [hi, lo] + rest;
    forall k | 2 <= k < |s| ensures s[k] != ':' {
      assert s[k] == rest[k - 2];
    }
  }

  lemma {:induction false} HexRoundTrip(bytes: seq<byte>)
    ensures NoColon(ToHex(bytes))
    ensures FromHex(ToHex(bytes)) == bytes
    decreases |bytes|
  {
    if bytes != [] {
      var b := bytes[0];
      var hi := HexDigits[b as int / 16];
      var lo := HexDigits[b as int % 16];
      var rest := ToHex(bytes[1..]);
      assert ToHex(bytes) == [hi, lo] + rest;
      HexRoundTrip(bytes[1..]);
      HexPairRoundTrip(b);
      FromHexCons(hi, lo, rest);
      NoColonCons(hi, lo, rest);
      assert bytes == [b] + bytes[1..];
    }
  }

  /** `encodedHexString`: the delimited hex form of a byte array. */
  function EncodedHex(bytes: seq<byte>): string
  {
    Delimited(ToHex(bytes))
  }

  /** The delimited form of n bytes is never padded, has length 3n - 1 for
      n > 0, and decodes back to the bytes once the colons are removed. */
  lemma EncodedHexRoundTrip(bytes: seq<byte>)
    ensures Strip(EncodedHex(bytes)) == ToHex(bytes)
    ensures FromHex(Strip(EncodedHex(bytes))) == bytes
    ensures |EncodedHex(bytes)| == if bytes == [] then 0 else 3 * |bytes| - 1
  {
    var h := ToHex(bytes);
    HexRoundTrip(bytes);
    assert |h| % 2 == 0 && |h| / 2 == |bytes|;
    assert Padded(h) == h;
    StripGrouped(h);
    GroupedLength(h);
  }

  /** `encodedHexString` as the source computes it: hex conversion, then `delimit`. */
  method EncodeHex(bytes: seq<byte>) returns (s: string)
    ensures s == EncodedHex(bytes)
  {
    s := Delimit(ToHex(bytes));
  }

  /** `BigInteger.toString(16)` of a non-negative value: lower-case base-16 digits
      without leading zeros ("0" for zero). */
  function Base16(n: nat): (s: string)
    ensures |s| > 0
    decreases n
  {
    if n < 16 then [HexDigits[n]] else Base16(n / 16) + [HexDigits[n % 16]]
  }

  /** The value of a string of lower-case hex digits, most significant first. */
  function Base16Value(s: string): nat
    decreases |s|
  {
    if s == [] then 0 else Base16Value(s[..|s| - 1]) * 16 + DigitValue(s[|s| - 1])
  }

  /** Appending a digit to a hex string multiplies its value by sixteen and
      adds the digit. */
  lemma Base16ValueSnoc(t: string, c: char)
    ensures Base16Value(t + [c]) == Base16Value(t) * 16 + DigitValue(c)
  {
    var s := t + [c];
    assert s[..|s| - 1] == t;
  }

  lemma NoColonSnoc(t: string, c: char)
    requires NoColon(t) && c != ':'
    ensures NoColon(t + [c])
  {
    var s := t + [c];
    forall k | 0 <= k < |t| ensures s[k] != ':' {
      assert s[k] == t[k];
    }
  }

  lemma {:induction false} Base16ValueRoundTrip(n: nat)
    ensures Base16Value(Base16(n)) == n
    decreases n
  {
    if n < 16 {
      DigitValueOf(n);
      Base16ValueSnoc([], HexDigits[n]);
      assert [] + [HexDigits[n]] == Base16(n);
    } else {
      var t := Base16(n / 16);
      var c := HexDigits[n % 16];
      DigitValueOf(n % 16);
      assert Base16(n) == t + [c];
      Base16ValueRoundTrip(n / 16);
      Base16ValueSnoc(t, c);
      assert Base16Value(Base16(n)) == (n / 16) * 16 + n % 16;
    }
  }

  lemma {:induction false} Base16Shape(n: nat)
    ensures NoColon(Base16(n))
    ensures n > 0 ==> Base16(n)[0] != '0'
    decreases n
  {
    DigitValueOf(n % 16);
    if n >= 16 {
      var t := Base16(n / 16);
      var c := HexDigits[n % 16];
      assert Base16(n) == t + [c];
      Base16Shape(n / 16);
      NoColonSnoc(t, c);
      assert (t + [c])[0] == t[0];
    }
  }

  /** `Base16` loses nothing: it reads back to its value, has no leading zero
      unless the value is zero, and holds no colon. */
  lemma Base16RoundTrip(n: nat)
    ensures Base16Value(Base16(n)) == n
    ensures NoColon(Base16(n))
    ensures n > 0 ==> Base16(n)[0] != '0'
  {
    Base16ValueRoundTrip(n);
    Base16Shape(n);
  }

  const DecimalDigits: string := "0123456789"

  lemma DecimalDigitOf(d: nat)
    requires d < 10
    ensures '0' <= DecimalDigits[d] <= '9' && (DecimalDigits[d] - '0') as nat == d
  {
  }

  /** The decimal rendering of a non-negative number (Java string concatenation of an int). */
  function Decimal(n: nat): (s: string)
    ensures |s| > 0
    decreases n
  {
    if n < 10 then [DecimalDigits[n]] else Decimal(n / 10) + [DecimalDigits[n % 10]]
  }

  /** The value of a string of decimal digits, most significant first. */
  function DecimalValue(s: string): nat
    decreases |s|
  {
    if s == [] then 0
    else DecimalValue(s[..|s| - 1]) * 10 + (if '0' <= s[|s| - 1] <= '9' then (s[|s| - 1] - '0') as nat else 0)
  }

  lemma DecimalValueSnoc(t: string, c: char)
    requires '0' <= c <= '9'
    ensures DecimalValue(t + [c]) == DecimalValue(t) * 10 + (c - '0') as nat
  {
    var s := t + [c];
    assert s[..|s| - 1] == t;
  }

  lemma {:induction false} DecimalRoundTrip(n: nat)
    ensures DecimalValue(Decimal(n)) == n
    decreases n
  {
    DecimalDigitOf(n % 10);
    if n < 10 {
      DecimalValueSnoc([], DecimalDigits[n]);
      assert [] + [DecimalDigits[n]] == Decimal(n);
    } else {
      var t := Decimal(n / 10);
      var c := DecimalDigits[n % 10];
      assert Decimal(n) == t + [c];
      DecimalRoundTrip(n / 10);
      DecimalValueSnoc(t, c);
    }
  }
}
