/**
 * The text encoders the converter uses when it turns a CAN message into CSV
 * fields: digits in a base (Python's `X` and decimal `str()` formats), the
 * two-digit `02X` byte format, and `' '.join` of the byte texts.
 * Each encoder is paired with a decoder and a round-trip lemma.
 */
module TextFormat {
  import opened Wrappers

  /** A byte of a frame's payload. */
  type Byte = x: nat | x < 256

  // ---------------------------------------------------------------------------
  // Single digits
  // ---------------------------------------------------------------------------

  /** The characters Python's upper-case hexadecimal format produces. */
  predicate IsUpperHex(c: char) {
    '0' <= c <= '9' || 'A' <= c <= 'F'
  }

  function DigitValue(c: char): (d: nat)
    requires IsUpperHex(c)
    ensures d < 16
    ensures d < 10 <==> c <= '9'
  {
    if c <= '9' then c as int - '0' as int else c as int - 'A' as int + 10
  }

  /** The digit character for `d`, upper case for 10..15. */
  function DigitChar(d: nat): (c: char)
    requires d < 16
    ensures IsUpperHex(c) && DigitValue(c) == d
    ensures c == '0' <==> d == 0
  {
    if d < 10 then ('0' as int + d) as char else ('A' as int + (d - 10)) as char
  }

  lemma DigitCharOfValue(c: char)
    requires IsUpperHex(c)
    ensures DigitChar(DigitValue(c)) == c
  {
  }

  /** The two bases the converter prints numbers in: decimal (`str()`)
      and hexadecimal (the `X` format). */
  predicate IsBase(base: nat) {
    base == 10 || base == 16
  }

  /** `c` is a digit of the given base. */
  predicate IsDigitOf(c: char, base: nat) {
    IsUpperHex(c) && DigitValue(c) < base
  }

  predicate AllDigits(s: string, base: nat) {
    forall i :: 0 <= i < |s| ==> IsDigitOf(s[i], base)
  }

  /** No leading zero, except for the single digit "0". */
  predicate Canonical(s: string) {
    |s| >= 1 && (s[0] == '0' ==> |s| == 1)
  }

  // ---------------------------------------------------------------------------
  // Numbers in a base: f'{n:X}' for base 16, str(n) for base 10
  // ---------------------------------------------------------------------------

  /** The digits of `n` in `base`, most significant first, without padding. */
  function ToBase(n: nat, base: nat): (s: string)
    requires IsBase(base)
    ensures Canonical(s) && AllDigits(s, base)
    ensures s[0] == '0' <==> n == 0
    decreases n
  {
    if n < base then [DigitChar(n)]
    else ToBase(n / base, base) + [DigitChar(n % base)]
  }

  /** The value of a digit string, most significant digit first. */
  function FromBase(s: string, base: nat): nat
    requires AllDigits(s, base)
    decreases |s|
  {
    if |s| == 0 then 0
    else FromBase(s[..|s| - 1], base) * base + DigitValue(s[|s| - 1])
  }

  /** Reading back the digits of `n` gives `n`. */
  lemma {:induction false} FromBaseToBase(n: nat, base: nat)
    requires IsBase(base)
    ensures FromBase(ToBase(n, base), base) == n
    decreases n
  {
    var s := ToBase(n, base);
    if n < base {
      assert s[..0] == [];
    } else {
      var front := ToBase(n / base, base);
      assert s[..|s| - 1] == front;
      FromBaseToBase(n / base, base);
      calc {
        FromBase(s, base);
        FromBase(front, base) * base + DigitValue(DigitChar(n % base));
        (n / base) * base + n % base;
        { DivModSplit(n, base); }
        n;
      }
    }
  }

  /** A canonical digit string that does not start with '0' has a positive value. */
  lemma {:induction false} FromBasePositive(s: string, base: nat)
    requires IsBase(base)
    requires |s| >= 1 && AllDigits(s, base) && s[0] != '0'
    ensures FromBase(s, base) > 0
    decreases |s|
  {
    if |s| == 1 {
      DigitCharOfValue(s[0]);
    } else {
      var front := s[..|s| - 1];
      assert front[0] == s[0];
      FromBasePositive(front, base);
    }
  }

  lemma DivModUnique(q: nat, d: nat, base: nat)
    requires IsBase(base) && d < base
    ensures (q * base + d) / base == q && (q * base + d) % base == d
  {
  }

  lemma DivModSplit(n: nat, base: nat)
    requires IsBase(base)
    ensures n == (n / base) * base + n % base
  {
  }

  /** Every canonical digit string is the rendering of its own value, so
      ToBase is a bijection between numbers and canonical strings. */
  lemma {:induction false} ToBaseFromBase(s: string, base: nat)
    requires IsBase(base)
    requires Canonical(s) && AllDigits(s, base)
    ensures ToBase(FromBase(s, base), base) == s
    decreases |s|
  {
    var last := s[|s| - 1];
    DigitCharOfValue(last);
    if |s| == 1 {
      assert s[..0] == [];
    } else {
      var front := s[..|s| - 1];
      assert front[0] == s[0];
      FromBasePositive(front, base);
      ToBaseFromBase(front, base);
      var q, d := FromBase(front, base), DigitValue(last);
      var n := FromBase(s, base);
      assert n == q * base + d;
      DivModUnique(q, d, base);
      assert s == front + [last];
    }
  }

  /** The decoder of ToBase: a non-empty string of upper-case digits of the
      base, and nothing else (no sign, prefix, blanks or lower case). */
  function ParseDigits(s: string, base: nat): (r: Option<nat>)
    ensures r.Some? ==> |s| >= 1 && AllDigits(s, base)
  {
    if |s| >= 1 && AllDigits(s, base) then Some(FromBase(s, base)) else None
  }

  lemma ParseToBase(n: nat, base: nat)
    requires IsBase(base)
    ensures ParseDigits(ToBase(n, base), base) == Some(n)
  {
    FromBaseToBase(n, base);
  }

  // ---------------------------------------------------------------------------
  // Payload bytes: ' '.join(f'{byte:02X}' for byte in data)
  // ---------------------------------------------------------------------------

  /** f'{b:02X}': two upper-case hexadecimal digits, zero padded. */
  function ByteHex(b: Byte): (s: string)
    ensures |s| == 2 && AllDigits(s, 16)
    ensures FromBase(s, 16) == b
  {
    var s := [DigitChar(b / 16), DigitChar(b % 16)];
    assert s[..1][..0] == [] && s[..1] == [s[0]];
    assert FromBase(s[..1], 16) == b / 16;
    s
  }

  /** Python's `sep.join(parts)`. */
  function Join(parts: seq<string>, sep: string): (s: string)
    decreases |parts|
  {
    if |parts| == 0 then ""
    else if |parts| == 1 then parts[0]
    else parts[0] + sep + Join(parts[1..], sep)
  }

  /** The `data` column: the payload bytes as space-separated hex pairs, or
      "" for an empty payload. */
  function DataHex(data: seq<Byte>): string {
    if |data| > 0 then Join(seq(|data|, i requires 0 <= i < |data| => ByteHex(data[i])), " ")
    else ""
  }

  /** DataHex of a non-empty payload is its first byte, a space, and the rest. */
  lemma DataHexUnfold(data: seq<Byte>)
    requires |data| >= 2
    ensures DataHex(data) == ByteHex(data[0]) + " " + DataHex(data[1..])
  {
    var parts := seq(|data|, i requires 0 <= i < |data| => ByteHex(data[i]));
    var rest := data[1..];
    assert parts[1..] == seq(|rest|, i requires 0 <= i < |rest| => ByteHex(rest[i]));
  }

  /** The shape of the `data` column: "" for no bytes, otherwise 3n-1
      characters, the hex pair of byte i at positions 3i and 3i+1 and a single
      space exactly at every position 3i+2. */
  lemma {:induction false} DataHexLayout(data: seq<Byte>)
    ensures |DataHex(data)| == if |data| == 0 then 0 else 3 * |data| - 1
    ensures forall i :: 0 <= i < |data| ==>
      DataHex(data)[3 * i] == ByteHex(data[i])[0] && DataHex(data)[3 * i + 1] == ByteHex(data[i])[1]
    ensures forall k :: 0 <= k < |DataHex(data)| ==>
      (DataHex(data)[k] == ' ' <==> k % 3 == 2) && (k % 3 != 2 ==> IsUpperHex(DataHex(data)[k]))
    decreases |data|
  {
    if |data| >= 2 {
      DataHexUnfold(data);
      var rest := data[1..];
      DataHexLayout(rest);
      var s, h, t := DataHex(data), ByteHex(data[0]), DataHex(rest);
      assert s == h + " " + t;
      forall i | 1 <= i < |data|
        ensures s[3 * i] == ByteHex(data[i])[0] && s[3 * i + 1] == ByteHex(data[i])[1]
      {
        assert rest[i - 1] == data[i];
        assert s[3 * i] == t[3 * (i - 1)];
        assert s[3 * i + 1] == t[3 * (i - 1) + 1];
      }
      forall k | 3 <= k < |s|
        ensures (s[k] == ' ' <==> k % 3 == 2) && (k % 3 != 2 ==> IsUpperHex(s[k]))
      {
        assert s[k] == t[k - 3];
      }
    } else if |data| == 1 {
      var parts := seq(|data|, i requires 0 <= i < |data| => ByteHex(data[i]));
      assert DataHex(data) == parts[0] == ByteHex(data[0]);
    }
  }

  /** The inverse of DataHex: hex pairs separated by single spaces. */
  function ParseDataHex(s: string): (r: Option<seq<Byte>>)
    ensures r == Some([]) <==> s == ""
  {
    if s == "" then Some([]) else ParseHexGroups(s)
  }

  function ParseHexGroups(s: string): (r: Option<seq<Byte>>)
    ensures r.Some? ==> |r.value| >= 1
    decreases |s|
  {
    if |s| < 2 || !IsUpperHex(s[0]) || !IsUpperHex(s[1]) then None
    else
      var b := DigitValue(s[0]) * 16 + DigitValue(s[1]);
      if |s| == 2 then Some([b])
      else if s[2] != ' ' then None
      else match ParseHexGroups(s[3..])
        case None => None
        case Some(rest) => Some([b] + rest)
  }

  /** One hex pair, alone or followed by a space and more text, parses as
      its byte followed by whatever the rest parses as. */
  lemma ParseHexGroupsStep(b: Byte, t: string)
    ensures ParseHexGroups(ByteHex(b)) == Some([b])
    ensures ParseHexGroups(ByteHex(b) + " " + t)
         == match ParseHexGroups(t)
            case None => None
            case Some(rest) => Some([b] + rest)
  {
  }

  /** Reading the `data` column back gives the payload. */
  lemma {:induction false} ParseDataHexRoundTrip(data: seq<Byte>)
    ensures ParseDataHex(DataHex(data)) == Some(data)
    decreases |data|
  {
    if |data| == 1 {
      var parts := seq(|data|, i requires 0 <= i < |data| => ByteHex(data[i]));
      assert DataHex(data) == parts[0] == ByteHex(data[0]);
      ParseHexGroupsStep(data[0], "");
      assert data == [data[0]];
    } else if |data| >= 2 {
      var rest := data[1..];
      DataHexUnfold(data);
      ParseDataHexRoundTrip(rest);
      ParseHexGroupsStep(data[0], DataHex(rest));
      assert data == [data[0]] + rest;
    }
  }

  /** Distinct payloads give distinct `data` columns. */
  lemma DataHexInjective(d1: seq<Byte>, d2: seq<Byte>)
    requires DataHex(d1) == DataHex(d2)
    ensures d1 == d2
  {
    ParseDataHexRoundTrip(d1);
    ParseDataHexRoundTrip(d2);
  }
}
