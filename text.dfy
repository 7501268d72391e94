/**
 * Bytes, Python's `str.encode("utf-8")` and `str(int)` / `"%d"`, the three
 * text-to-bytes conversions the response layer relies on.
 */
module Text {
  import opened Wrappers

  type Byte = b: int | 0 <= b < 256
  type Bytes = seq<Byte>

  /** `b''.join(chunks)` */
  function Flatten(chunks: seq<Bytes>): Bytes {
    if chunks == [] then [] else chunks[0] + Flatten(chunks[1..])
  }

  lemma {:induction false} FlattenAppend(a: seq<Bytes>, b: seq<Bytes>)
    ensures Flatten(a + b) == Flatten(a) + Flatten(b)
  {
    if a != [] {
      calc {
        Flatten(a + b);
        (a + b)[0] + Flatten((a + b)[1..]);
        { assert (a + b)[1..] == a[1..] + b; }
        a[0] + Flatten(a[1..] + b);
        { FlattenAppend(a[1..], b); }
        a[0] + (Flatten(a[1..]) + Flatten(b));
        Flatten(a) + Flatten(b);
      }
    } else {
      assert a + b == b;
    }
  }

  /** `''.join(texts)` */
  function Concat(texts: seq<string>): string {
    if texts == [] then [] else texts[0] + Concat(texts[1..])
  }

  /** `s.index(c)`: the position of the first occurrence of `c` in `s`. */
  function IndexOf(s: string, c: char): (k: nat)
    requires c in s
    ensures k < |s| && s[k] == c && c !in s[..k]
  {
    if s[0] == c then 0
    else
      var k := IndexOf(s[1..], c);
      assert s[..k + 1] == [s[0]] + s[1..][..k];
      k + 1
  }

  // ---------------------------------------------------------------- UTF-8

  predicate IsScalar(x: int) {
    0 <= x < 0xD800 || 0xE000 <= x < 0x11_0000
  }

  predicate IsContinuation(b: Byte) {
    0x80 <= b < 0xC0
  }

  /** Number of bytes UTF-8 uses for a code point. */
  function Utf8Width(c: char): nat {
    var x := c as int;
    if x < 0x80 then 1 else if x < 0x800 then 2 else if x < 0x1_0000 then 3 else 4
  }

  /** UTF-8 encoding of one character (RFC 3629, section 3). */
  function EncodeChar(c: char): (r: Bytes)
    ensures |r| == Utf8Width(c)
    ensures IsContinuation(r[0]) == false
    ensures forall i :: 1 <= i < |r| ==> IsContinuation(r[i])
  {
    var x := c as int;
    var q1 := x / 64;
    var q2 := q1 / 64;
    if x < 0x80 then [x]
    else if x < 0x800 then [0xC0 + q1, 0x80 + x % 64]
    else if x < 0x1_0000 then [0xE0 + q2, 0x80 + q1 % 64, 0x80 + x % 64]
    else [0xF0 + q2 / 64, 0x80 + q2 % 64, 0x80 + q1 % 64, 0x80 + x % 64]
  }

  /** `s.encode("utf-8")` */
  function Encode(s: string): (r: Bytes)
    ensures |r| >= |s|
  {
    if s == [] then [] else EncodeChar(s[0]) + Encode(s[1..])
  }

  /** Sum of the UTF-8 widths of the characters of `s`. */
  function EncodedLength(s: string): nat {
    if s == [] then 0 else Utf8Width(s[0]) + EncodedLength(s[1..])
  }

  predicate IsAscii(s: string) {
    forall i :: 0 <= i < |s| ==> s[i] as int < 0x80
  }

  /** The byte length of an encoded string is the sum of its characters' widths. */
  lemma {:induction false} EncodeLength(s: string)
    ensures |Encode(s)| == EncodedLength(s)
  {
    if s != [] {
      EncodeLength(s[1..]);
    }
  }

  /** For ASCII text, one byte per character, each byte the character's code. */
  lemma {:induction false} EncodeAscii(s: string)
    requires IsAscii(s)
    ensures |Encode(s)| == |s|
    ensures forall i :: 0 <= i < |s| ==> Encode(s)[i] == s[i] as int
  {
    if s != [] {
      assert IsAscii(s[1..]) by {
        forall i | 0 <= i < |s[1..]| ensures s[1..][i] as int < 0x80 {
          assert s[1..][i] == s[i + 1];
        }
      }
      EncodeAscii(s[1..]);
    }
  }

  /** Encoding distributes over concatenation. */
  lemma {:induction false} EncodeAppend(a: string, b: string)
    ensures Encode(a + b) == Encode(a) + Encode(b)
  {
    if a != [] {
      calc {
        Encode(a + b);
        EncodeChar((a + b)[0]) + Encode((a + b)[1..]);
        { assert (a + b)[1..] == a[1..] + b; }
        EncodeChar(a[0]) + Encode(a[1..] + b);
        { EncodeAppend(a[1..], b); }
        EncodeChar(a[0]) + (Encode(a[1..]) + Encode(b));
        Encode(a) + Encode(b);
      }
    } else {
      assert a + b == b;
    }
  }

  /** Encoding text chunk by chunk and joining the bytes equals encoding the joined text. */
  lemma {:induction false} EncodeConcat(texts: seq<string>)
    ensures Flatten(seq(|texts|, i requires 0 <= i < |texts| => Encode(texts[i]))) == Encode(Concat(texts))
  {
    var enc := seq(|texts|, i requires 0 <= i < |texts| => Encode(texts[i]));
    if texts != [] {
      var tail := seq(|texts[1..]|, i requires 0 <= i < |texts[1..]| => Encode(texts[1..][i]));
      assert enc[1..] == tail;
      EncodeConcat(texts[1..]);
      EncodeAppend(texts[0], Concat(texts[1..]));
    }
  }

  /** Decodes the first character of a UTF-8 byte string and reports how many bytes it used. */
  function DecodeFirst(b: Bytes): (r: Option<(char, nat)>)
    ensures r.Some? ==> 1 <= r.value.1 <= |b|
  {
    if b == [] then None
    else if b[0] < 0x80 then Some((b[0] as char, 1))
    else if 0xC0 <= b[0] < 0xE0 && |b| >= 2 && IsContinuation(b[1]) then
      var x: int := (b[0] as int - 0xC0) * 64 + (b[1] as int - 0x80);
      if 0x80 <= x then Some((x as char, 2)) else None
    else if 0xE0 <= b[0] < 0xF0 && |b| >= 3 && IsContinuation(b[1]) && IsContinuation(b[2]) then
      var x: int := ((b[0] as int - 0xE0) * 64 + (b[1] as int - 0x80)) * 64 + (b[2] as int - 0x80);
      if 0x800 <= x && IsScalar(x) then Some((x as char, 3)) else None
    else if 0xF0 <= b[0] < 0xF8 && |b| >= 4
            && IsContinuation(b[1]) && IsContinuation(b[2]) && IsContinuation(b[3]) then
      var x: int := (((b[0] as int - 0xF0) * 64 + (b[1] as int - 0x80)) * 64 + (b[2] as int - 0x80)) * 64
                     + (b[3] as int - 0x80);
      if 0x1_0000 <= x && IsScalar(x) then Some((x as char, 4)) else None
    else None
  }

  /** `b.decode("utf-8")`, with `None` for malformed input. */
  function Decode(b: Bytes): Option<string>
    decreases |b|
  {
    if b == [] then Some([])
    else match DecodeFirst(b)
      case None => None
      case Some((c, n)) =>
        match Decode(b[n..])
        case None => None
        case Some(rest) => Some([c] + rest)
  }

  lemma DecodeFirstOfEncodeChar(c: char, rest: Bytes)
    ensures DecodeFirst(EncodeChar(c) + rest) == Some((c, |EncodeChar(c)|))
  {
    var x := c as int;
    var q1 := x / 64;
    var q2 := q1 / 64;
    var b := EncodeChar(c) + rest;
    assert x == q1 * 64 + x % 64;
    assert q1 == q2 * 64 + q1 % 64;
    if x < 0x80 {
    } else if x < 0x800 {
      assert b[0] == 0xC0 + q1 && b[1] == 0x80 + x % 64;
    } else if x < 0x1_0000 {
      assert b[0] == 0xE0 + q2 && b[1] == 0x80 + q1 % 64 && b[2] == 0x80 + x % 64;
    } else {
      assert q2 == (q2 / 64) * 64 + q2 % 64;
      assert b[0] == 0xF0 + q2 / 64 && b[1] == 0x80 + q2 % 64;
      assert b[2] == 0x80 + q1 % 64 && b[3] == 0x80 + x % 64;
    }
  }

  /** Decoding inverts encoding: `s.encode("utf-8").decode("utf-8") == s`. */
  lemma {:induction false} DecodeEncode(s: string)
    ensures Decode(Encode(s)) == Some(s)
  {
    if s != [] {
      var e := EncodeChar(s[0]);
      DecodeFirstOfEncodeChar(s[0], Encode(s[1..]));
      assert (e + Encode(s[1..]))[|e|..] == Encode(s[1..]);
      DecodeEncode(s[1..]);
      assert [s[0]] + s[1..] == s;
    }
  }

  /** Encoding is injective, so distinct texts never produce the same bytes. */
  lemma EncodeInjective(s: string, t: string)
    requires Encode(s) == Encode(t)
    ensures s == t
  {
    DecodeEncode(s);
    DecodeEncode(t);
  }

  // ---------------------------------------------------- decimal numerals

  function DigitChar(d: nat): char
    requires d < 10
  {
    ('0' as int + d) as char
  }

  predicate IsDigits(s: string) {
    forall i :: 0 <= i < |s| ==> '0' <= s[i] <= '9'
  }

  /** `str(n)` for a non-negative integer: shortest decimal numeral, no leading zero. */
  function NatToString(n: nat): (s: string)
    ensures |s| >= 1 && IsDigits(s)
    ensures s[0] == '0' <==> n == 0
  {
    if n < 10 then [DigitChar(n)] else NatToString(n / 10) + [DigitChar(n % 10)]
  }

  /** `str(i)` / `"%d" % i` for any integer. */
  function IntToString(i: int): (s: string)
    ensures |s| >= 1 && ' ' !in s
  {
    if i < 0 then "-" + NatToString(-i) else NatToString(i)
  }

  /** A three-digit number is written with its three digits. */
  lemma ThreeDigits(n: nat)
    requires 100 <= n < 1000
    ensures IntToString(n) == [DigitChar(n / 100), DigitChar(n / 10 % 10), DigitChar(n % 10)]
  {
    assert NatToString(n / 100) == [DigitChar(n / 100)];
    assert NatToString(n / 10) == [DigitChar(n / 100), DigitChar(n / 10 % 10)];
  }

  function ParseDigits(s: string): nat
    requires IsDigits(s)
  {
    if s == [] then 0 else ParseDigits(s[..|s| - 1]) * 10 + (s[|s| - 1] as int - '0' as int)
  }

  /** `int(s)` for the numerals `IntToString` produces. */
  function ParseInt(s: string): Option<int> {
    if |s| >= 1 && s[0] == '-' && IsDigits(s[1..]) then Some(0 - ParseDigits(s[1..]) as int)
    else if IsDigits(s) then Some(ParseDigits(s))
    else None
  }

  lemma {:induction false} ParseNatToString(n: nat)
    ensures ParseDigits(NatToString(n)) == n
  {
    if n >= 10 {
      var s := NatToString(n);
      assert s[..|s| - 1] == NatToString(n / 10);
      ParseNatToString(n / 10);
    }
  }

  /** `int(str(i)) == i` */
  lemma IntToStringRoundTrip(i: int)
    ensures ParseInt(IntToString(i)) == Some(i)
  {
    var s := IntToString(i);
    if i < 0 {
      assert s == "-" + NatToString(-i);
      assert s[0] == '-' && s[1..] == NatToString(-i);
      ParseNatToString(-i);
    } else {
      assert s == NatToString(i) && '0' <= s[0] <= '9';
      ParseNatToString(i);
    }
  }
}
