/** url_encode and url_decode of libredpitaya's http.c, on NUL-terminated byte strings. */
module UrlCodec {
  type Byte = bv8

  const NUL: Byte := 0
  const SPACE: Byte := 0x20
  const PERCENT: Byte := 0x25
  const PLUS: Byte := 0x2B
  const DIGIT_0: Byte := 0x30
  const DIGIT_9: Byte := 0x39
  const UPPER_A: Byte := 0x41
  const UPPER_Z: Byte := 0x5A
  const LOWER_A: Byte := 0x61
  const LOWER_F: Byte := 0x66
  const LOWER_Z: Byte := 0x7A

  // ---------------------------------------------------------------- characters

  predicate IsDigit(c: Byte) {
    DIGIT_0 <= c <= DIGIT_9
  }

  predicate IsAlnum(c: Byte) {
    IsDigit(c) || LOWER_A <= c <= LOWER_Z || UPPER_A <= c <= UPPER_Z
  }

  /** Letters, digits and "-_.~": section 2.3 of RFC 3986. */
  predicate Unreserved(c: Byte) {
    IsAlnum(c) || c == 0x2D || c == 0x5F || c == 0x2E || c == 0x7E
  }

  function ToLower(c: Byte): Byte {
    if UPPER_A <= c <= UPPER_Z then c + 32 else c
  }

  /** The value of a hex digit; for any other character whatever the arithmetic gives, as in the source. */
  function FromHex(c: Byte): Byte {
    if IsDigit(c) then c - DIGIT_0 else ToLower(c) - LOWER_A + 10
  }

  function ToHex(code: Byte): Byte {
    var d := code & 15;
    if d < 10 then DIGIT_0 + d else LOWER_A + (d - 10)
  }

  /** The digits that ToHex produces. */
  predicate LowerHex(c: Byte) {
    IsDigit(c) || LOWER_A <= c <= LOWER_F
  }

  function FromTriplet(hi: Byte, lo: Byte): Byte {
    (FromHex(hi) << 4) | FromHex(lo)
  }

  lemma HexRoundTrip(c: Byte)
    ensures LowerHex(ToHex(c >> 4)) && LowerHex(ToHex(c & 15))
    ensures FromTriplet(ToHex(c >> 4), ToHex(c & 15)) == c
  {
  }

  lemma HexDigits(hi: Byte, lo: Byte)
    ensures LowerHex(hi) && LowerHex(lo) <==>
      ToHex(FromTriplet(hi, lo) >> 4) == hi && ToHex(FromTriplet(hi, lo) & 15) == lo
  {
  }

  // ---------------------------------------------------------------- strings

  function EncodeByte(c: Byte): seq<Byte> {
    if Unreserved(c) then [c]
    else if c == SPACE then [PLUS]
    else [PERCENT, ToHex(c >> 4), ToHex(c & 15)]
  }

  function Encode(s: seq<Byte>): seq<Byte> {
    if s == [] then [] else EncodeByte(s[0]) + Encode(s[1..])
  }

  /** A '%' that is not followed by two characters is dropped. */
  function Decode(t: seq<Byte>): seq<Byte>
    decreases |t|
  {
    if t == [] then []
    else if t[0] == PERCENT then
      if |t| >= 3 then [FromTriplet(t[1], t[2])] + Decode(t[3..]) else Decode(t[1..])
    else [if t[0] == PLUS then SPACE else t[0]] + Decode(t[1..])
  }

  lemma ByteRoundTrip(c: Byte, rest: seq<Byte>)
    ensures Decode(EncodeByte(c) + rest) == [c] + Decode(rest)
  {
    HexRoundTrip(c);
    var t := EncodeByte(c) + rest;
    assert t[|EncodeByte(c)|..] == rest;
  }

  /** Decoding undoes encoding. */
  lemma {:induction false} DecodeEncode(s: seq<Byte>)
    ensures Decode(Encode(s)) == s
  {
    if s != [] {
      ByteRoundTrip(s[0], Encode(s[1..]));
      DecodeEncode(s[1..]);
    }
  }

  /** The digit for a value below 16, in either case. */
  function HexDigit(value: Byte, upper: bool): Byte {
    if value < 10 then 0x30 + value else (if upper then 0x41 else 0x61) + (value - 10)
  }

  lemma DigitValues(value: Byte, upper: bool)
    requires value < 16
    ensures FromHex(HexDigit(value, upper)) == value
    ensures !upper ==> ToHex(value) == HexDigit(value, upper)
  {
  }

  /** A triplet decodes to the byte it stands for, whichever case its digits are in, so "%2F" and "%2f" to a slash; a
      '+' decodes to a space, any other character to itself, and a '%' before fewer than two characters is dropped. */
  lemma DecodesEachForm(hi: Byte, hiUpper: bool, lo: Byte, loUpper: bool, c: Byte, rest: seq<Byte>)
    requires hi < 16 && lo < 16 && c != PERCENT
    ensures Decode([PERCENT, HexDigit(hi, hiUpper), HexDigit(lo, loUpper)] + rest) == [16 * hi + lo] + Decode(rest)
    ensures Decode([c] + rest) == [if c == 0x2B then 0x20 else c] + Decode(rest)
    ensures Decode([PERCENT]) == [] && Decode([PERCENT, c]) == Decode([c])
  {
    DigitValues(hi, hiUpper);
    DigitValues(lo, loUpper);
    NibblesJoin(hi, lo);
    assert ([PERCENT, HexDigit(hi, hiUpper), HexDigit(lo, loUpper)] + rest)[3..] == rest;
    assert ([c] + rest)[1..] == rest;
    assert [PERCENT][1..] == [] && [PERCENT, c][1..] == [c];
  }

  lemma NibblesJoin(hi: Byte, lo: Byte)
    requires hi < 16 && lo < 16
    ensures (hi << 4) | lo == 16 * hi + lo
  {
  }

  /** What the encoder writes: unreserved characters, '+', and %hh with lower-case digits for a byte that is
      neither unreserved nor a space (sections 2.1 and 2.3 of RFC 3986, and '+' as in HTML forms). */
  predicate Canonical(t: seq<Byte>)
    decreases |t|
  {
    if t == [] then true
    else if t[0] == PERCENT then
      && |t| >= 3 && LowerHex(t[1]) && LowerHex(t[2])
      && !Unreserved(FromTriplet(t[1], t[2])) && FromTriplet(t[1], t[2]) != SPACE
      && Canonical(t[3..])
    else (Unreserved(t[0]) || t[0] == PLUS) && Canonical(t[1..])
  }

  lemma CanonicalByte(c: Byte, rest: seq<Byte>)
    requires Canonical(rest)
    ensures Canonical(EncodeByte(c) + rest)
  {
    HexRoundTrip(c);
    var t := EncodeByte(c) + rest;
    assert t[|EncodeByte(c)|..] == rest;
  }

  lemma {:induction false} EncodedIsCanonical(s: seq<Byte>)
    ensures Canonical(Encode(s))
  {
    if s != [] {
      EncodedIsCanonical(s[1..]);
      CanonicalByte(s[0], Encode(s[1..]));
    }
  }

  lemma EncodeCons(c: Byte, s: seq<Byte>)
    ensures Encode([c] + s) == EncodeByte(c) + Encode(s)
  {
    assert ([c] + s)[1..] == s;
  }

  lemma {:induction false} CanonicalRoundTrip(t: seq<Byte>)
    requires Canonical(t)
    ensures Encode(Decode(t)) == t
    decreases |t|
  {
    if t != [] {
      if t[0] == PERCENT {
        CanonicalRoundTrip(t[3..]);
        EncodeCons(FromTriplet(t[1], t[2]), Decode(t[3..]));
        TripletBytes(t[1], t[2]);
        assert t == [PERCENT, t[1], t[2]] + t[3..];
      } else {
        CanonicalRoundTrip(t[1..]);
        EncodeCons(if t[0] == PLUS then SPACE else t[0], Decode(t[1..]));
        PlainBytes(t[0]);
        assert t == [t[0]] + t[1..];
      }
    }
  }

  lemma TripletBytes(hi: Byte, lo: Byte)
    requires LowerHex(hi) && LowerHex(lo) && !Unreserved(FromTriplet(hi, lo)) && FromTriplet(hi, lo) != SPACE
    ensures EncodeByte(FromTriplet(hi, lo)) == [PERCENT, hi, lo]
  {
    HexDigits(hi, lo);
  }

  lemma PlainBytes(c: Byte)
    requires Unreserved(c) || c == PLUS
    ensures EncodeByte(if c == PLUS then SPACE else c) == [c]
  {
  }

  /** Encoding undoes decoding exactly on the encoder's own outputs. */
  lemma {:induction false} EncodeDecodeIffCanonical(t: seq<Byte>)
    ensures Encode(Decode(t)) == t <==> Canonical(t)
  {
    EncodedIsCanonical(Decode(t));
    if Canonical(t) {
      CanonicalRoundTrip(t);
    }
  }

  // ---------------------------------------------------------------- the C functions

  /** The string that starts at the beginning of a buffer and ends before its first NUL. */
  function CString(buf: seq<Byte>): seq<Byte> {
    if buf == [] || buf[0] == NUL then [] else [buf[0]] + CString(buf[1..])
  }

  ghost predicate NulFree(s: seq<Byte>) {
    forall i :: 0 <= i < |s| ==> s[i] != NUL
  }

  lemma {:induction false} CStringIs(buf: seq<Byte>, n: nat)
    requires n < |buf| && buf[n] == NUL && NulFree(buf[..n])
    ensures CString(buf) == buf[..n]
  {
    if n > 0 {
      assert buf[0] == buf[..n][0];
      assert buf[1..][..n - 1] == buf[..n][1..];
      CStringIs(buf[1..], n - 1);
    }
  }

  lemma {:induction false} EncodedSize(s: seq<Byte>)
    ensures |Encode(s)| <= 3 * |s| && NulFree(Encode(s))
  {
    if s != [] {
      HexRoundTrip(s[0]);
      EncodedSize(s[1..]);
    }
  }

  lemma {:induction false} EncodeSnoc(s: seq<Byte>, c: Byte)
    ensures Encode(s + [c]) == Encode(s) + EncodeByte(c)
  {
    if s == [] {
      assert [c][1..] == [];
    } else {
      assert (s + [c])[1..] == s[1..] + [c];
      EncodeSnoc(s[1..], c);
    }
  }

  /** strlen */
  method StrLen(str: array<Byte>) returns (n: nat)
    requires exists k :: 0 <= k < str.Length && str[k] == NUL
    ensures n < str.Length && str[n] == NUL && NulFree(str[..n]) && str[..n] == CString(str[..])
  {
    n := 0;
    while str[n] != NUL
      invariant n < str.Length && NulFree(str[..n])
      invariant exists k :: n <= k < str.Length && str[k] == NUL
      decreases str.Length - n
    {
      n := n + 1;
    }
    CStringIs(str[..], n);
    assert str[..][..n] == str[..n];
  }

  /** One turn of url_encode's loop: writes the code of one character. */
  method PutEncoded(buf: array<Byte>, pbuf: nat, c: Byte) returns (pbuf': nat)
    requires pbuf + 3 <= buf.Length
    modifies buf
    ensures pbuf <= pbuf' <= pbuf + 3 && buf[..pbuf'] == old(buf[..pbuf]) + EncodeByte(c)
  {
    pbuf' := pbuf;
    if Unreserved(c) {
      buf[pbuf'] := c;
      pbuf' := pbuf' + 1;
    } else if c == SPACE {
      buf[pbuf'] := PLUS;
      pbuf' := pbuf' + 1;
    } else {
      buf[pbuf'] := PERCENT;
      buf[pbuf' + 1] := ToHex(c >> 4);
      buf[pbuf' + 2] := ToHex(c & 15);
      pbuf' := pbuf' + 3;
    }
  }

  /** Ends the string in the buffer. */
  method Terminate(buf: array<Byte>, n: nat)
    requires n < buf.Length
    modifies buf
    ensures buf[..n] == old(buf[..n]) && buf[n] == NUL
  {
    buf[n] := NUL;
  }

  /** The output buffer of 3n + 1 bytes always suffices. */
  method UrlEncode(str: array<Byte>) returns (buf: array<Byte>)
    requires exists k :: 0 <= k < str.Length && str[k] == NUL
    ensures fresh(buf) && buf.Length == 3 * |CString(str[..])| + 1
    ensures exists k :: 0 <= k < buf.Length && buf[k] == NUL
    ensures CString(buf[..]) == Encode(CString(str[..]))
  {
    var n := StrLen(str);
    ghost var s := str[..n];
    buf := new Byte[n * 3 + 1];
    var pstr, pbuf: nat := 0, 0;
    while str[pstr] != NUL
      invariant pstr <= n && pbuf <= 3 * pstr && str[..] == old(str[..])
      invariant buf[..pbuf] == Encode(s[..pstr])
      decreases n - pstr
    {
      assert pstr < n;
      OneMoreByte(s, pstr);
      pbuf := PutEncoded(buf, pbuf, str[pstr]);
      pstr := pstr + 1;
    }
    StopsAtEnd(str, n, pstr);
    Terminate(buf, pbuf);
    EncodedSize(s);
    assert buf[..][..pbuf] == buf[..pbuf] == Encode(s);
    CStringIs(buf[..], pbuf);
  }

  lemma OneMoreByte(s: seq<Byte>, p: nat)
    requires p < |s|
    ensures Encode(s[..p + 1]) == Encode(s[..p]) + EncodeByte(s[p])
  {
    assert s[..p + 1] == s[..p] + [s[p]];
    EncodeSnoc(s[..p], s[p]);
  }

  lemma StopsAtEnd(str: array<Byte>, n: nat, p: nat)
    requires p <= n < str.Length && NulFree(str[..n]) && str[p] == NUL
    ensures p == n && str[..n][..p] == str[..n]
  {
    assert forall i :: 0 <= i < n ==> str[..n][i] == str[i];
  }

  lemma {:induction false} DecodedSize(t: seq<Byte>)
    ensures |Decode(t)| <= |t|
    decreases |t|
  {
    if t != [] {
      DecodedSize(t[1..]);
      if |t| >= 3 {
        DecodedSize(t[3..]);
      }
    }
  }

  /** How many characters of a nonempty string one turn of url_decode's loop takes, and what it writes. */
  function Taken(t: seq<Byte>): nat
    requires t != []
  {
    if t[0] == PERCENT && |t| >= 3 then 3 else 1
  }

  function Written(t: seq<Byte>): seq<Byte>
    requires t != []
  {
    if t[0] == PERCENT then (if |t| >= 3 then [FromTriplet(t[1], t[2])] else [])
    else if t[0] == PLUS then [SPACE] else [t[0]]
  }

  lemma DecodeTurn(s: seq<Byte>, p: nat, out: seq<Byte>)
    requires p < |s|
    ensures p + Taken(s[p..]) <= |s|
    ensures (out + Written(s[p..])) + Decode(s[p + Taken(s[p..])..]) == out + Decode(s[p..])
  {
    var t := s[p..];
    assert t[Taken(t)..] == s[p + Taken(t)..];
    assert Decode(t) == Written(t) + Decode(t[Taken(t)..]);
  }

  /** One turn of url_decode's loop. */
  method PutDecoded(buf: array<Byte>, pbuf: nat, str: array<Byte>, p: nat, ghost n: nat) returns (p': nat, pbuf': nat)
    requires buf != str && p < n < str.Length && NulFree(str[..n]) && str[n] == NUL && pbuf < buf.Length
    modifies buf
    ensures p' == p + Taken(str[p..n]) && pbuf <= pbuf' <= pbuf + 1
    ensures buf[..pbuf'] == old(buf[..pbuf]) + Written(str[p..n])
  {
    assert forall i :: 0 <= i < n ==> str[..n][i] == str[i];
    p', pbuf' := p, pbuf;
    if str[p'] == PERCENT {
      if str[p' + 1] != NUL && str[p' + 2] != NUL {
        buf[pbuf'] := FromTriplet(str[p' + 1], str[p' + 2]);
        pbuf' := pbuf' + 1;
        p' := p' + 2;
      }
    } else if str[p'] == PLUS {
      buf[pbuf'] := SPACE;
      pbuf' := pbuf' + 1;
    } else {
      buf[pbuf'] := str[p'];
      pbuf' := pbuf' + 1;
    }
    p' := p' + 1;
  }

  /** One turn, and what it leaves to decode. */
  method DecodeStep(buf: array<Byte>, pbuf: nat, str: array<Byte>, p: nat, ghost n: nat) returns (p': nat, pbuf': nat)
    requires buf != str && p < n < str.Length && NulFree(str[..n]) && str[n] == NUL && pbuf < buf.Length
    modifies buf
    ensures p < p' <= n && pbuf <= pbuf' <= pbuf + 1 && pbuf' <= buf.Length
    ensures buf[..pbuf'] + Decode(str[p'..n]) == old(buf[..pbuf]) + Decode(str[p..n])
  {
    ghost var t := str[p..n];
    DecodeTurn(t, 0, buf[..pbuf]);
    assert t[0..] == t;
    p', pbuf' := PutDecoded(buf, pbuf, str, p, n);
    assert t[Taken(t)..] == str[p'..n];
  }

  /** The output buffer of n + 1 bytes always suffices. A decoded NUL ends the resulting string early. */
  method UrlDecode(str: array<Byte>) returns (buf: array<Byte>)
    requires exists k :: 0 <= k < str.Length && str[k] == NUL
    ensures fresh(buf) && buf.Length == |CString(str[..])| + 1
    ensures
      var d := Decode(CString(str[..]));
      |d| < buf.Length && buf[..|d|] == d && buf[|d|] == NUL
  {
    var n := StrLen(str);
    buf := new Byte[n + 1];
    var pstr, pbuf: nat := 0, 0;
    while str[pstr] != NUL
      invariant pstr <= n && pbuf <= pstr && str[..] == old(str[..])
      invariant buf[..pbuf] + Decode(str[pstr..n]) == Decode(str[..n])
      decreases n - pstr
    {
      pstr, pbuf := DecodeStep(buf, pbuf, str, pstr, n);
    }
    StopsAtEnd(str, n, pstr);
    assert Decode(str[pstr..n]) == [];
    Terminate(buf, pbuf);
  }
}
