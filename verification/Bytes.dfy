/** Byte strings: UTF-8 and unpadded base64url (section 5 of RFC 4648). */
module Bytes {
  import opened Wrappers

  type Byte = b: int | 0 <= b < 256

  // ---------------------------------------------------------------------------
  // UTF-8

  function EncodeChar(c: char): (bs: seq<Byte>)
    ensures 1 <= |bs| <= 4
  {
    var n := c as int;
    if n < 0x80 then [n]
    else if n < 0x800 then [0xC0 + n / 64, 0x80 + n % 64]
    else if n < 0x10000 then [0xE0 + n / 4096, 0x80 + n / 64 % 64, 0x80 + n % 64]
    else [0xF0 + n / 262144, 0x80 + n / 4096 % 64, 0x80 + n / 64 % 64, 0x80 + n % 64]
  }

  function Encode(s: string): seq<Byte> {
    if s == "" then [] else EncodeChar(s[0]) + Encode(s[1..])
  }

  function At(bs: seq<Byte>, i: nat): int
    requires i < |bs|
  {
    bs[i]
  }

  /** The character the first bytes spell, if they are its encoding. */
  function FirstChar(bs: seq<Byte>): (c: Option<char>)
    requires bs != []
    ensures c.Some? ==> EncodeChar(c.value) <= bs
  {
    var n := if bs[0] < 0x80 then 1 else if bs[0] < 0xE0 then 2 else if bs[0] < 0xF0 then 3 else 4;
    if |bs| < n then None
    else
      var code := if n == 1 then At(bs, 0)
                  else if n == 2 then (At(bs, 0) - 0xC0) * 64 + At(bs, 1) - 0x80
                  else if n == 3 then (At(bs, 0) - 0xE0) * 4096 + (At(bs, 1) - 0x80) * 64 + At(bs, 2) - 0x80
                  else (At(bs, 0) - 0xF0) * 262144 + (At(bs, 1) - 0x80) * 4096 + (At(bs, 2) - 0x80) * 64 + At(bs, 3) - 0x80;
      if 0 <= code < 0xD800 || 0xE000 <= code < 0x110000 then
        var c := code as char;
        if EncodeChar(c) == bs[..n] then Some(c) else None
      else None
  }

  /** Strict decoding: None where Python raises UnicodeDecodeError. */
  function Decode(bs: seq<Byte>): Option<string>
    decreases |bs|
  {
    if bs == [] then Some("")
    else
      match FirstChar(bs)
      case None => None
      case Some(c) =>
        match Decode(bs[|EncodeChar(c)|..])
        case None => None
        case Some(rest) => Some([c] + rest)
  }

  lemma FirstCharIs(c: char, rest: seq<Byte>)
    ensures FirstChar(EncodeChar(c) + rest) == Some(c)
  {
    var bs := EncodeChar(c) + rest;
    var n := |EncodeChar(c)|;
    assert bs[..n] == EncodeChar(c);
    assert forall k :: 0 <= k < n ==> bs[k] == EncodeChar(c)[k];
    CharDigits(c as int);
  }

  lemma CharDigits(n: int)
    requires 0 <= n < 0x110000
    ensures n == n / 64 * 64 + n % 64
    ensures n / 64 == n / 4096 * 64 + n / 64 % 64
    ensures n / 4096 == n / 262144 * 64 + n / 4096 % 64
  {}

  /** Decoding inverts encoding. */
  lemma {:induction false} Utf8RoundTrip(s: string)
    ensures Decode(Encode(s)) == Some(s)
  {
    hide EncodeChar, FirstChar;
    if s != "" {
      var head, tail := EncodeChar(s[0]), Encode(s[1..]);
      FirstCharIs(s[0], tail);
      Utf8RoundTrip(s[1..]);
      assert (head + tail)[|head|..] == tail && [s[0]] + s[1..] == s;
    }
  }

  /** Decoding with errors ignored: bytes that start no character are skipped one by one. */
  function DecodeIgnore(bs: seq<Byte>): string
    decreases |bs|
  {
    if bs == [] then ""
    else
      match FirstChar(bs)
      case None => DecodeIgnore(bs[1..])
      case Some(c) => [c] + DecodeIgnore(bs[|EncodeChar(c)|..])
  }

  /** The bytes behind the first one of a character. */
  predicate Continues(bs: seq<Byte>) {
    forall i :: 0 <= i < |bs| ==> 0x80 <= bs[i] < 0xC0
  }

  lemma CharShape(c: char)
    ensures var e := EncodeChar(c);
            && Continues(e[1..]) && !(0x80 <= e[0] < 0xC0)
            && |e| == if e[0] < 0x80 then 1 else if e[0] < 0xE0 then 2 else if e[0] < 0xF0 then 3 else 4
  {}

  /** The code points of one to four bytes (the table in section 3 of RFC 3629): the bits
      behind the length mark of the first byte, then six from every other. */
  lemma CharBits(c: char)
    ensures var n, e := c as int, EncodeChar(c);
            && (|e| == 1 <==> n < 0x80) && (|e| <= 2 <==> n < 0x800) && (|e| <= 3 <==> n < 0x10000)
            && match |e|
               case 1 => n == e[0]
               case 2 => 0xC0 <= e[0] < 0xE0 && n == (e[0] - 0xC0) * 64 + Low(e[1])
               case 3 => 0xE0 <= e[0] < 0xF0 && n == ((e[0] - 0xE0) * 64 + Low(e[1])) * 64 + Low(e[2])
               case _ => 0xF0 <= e[0] && n == (((e[0] - 0xF0) * 64 + Low(e[1])) * 64 + Low(e[2])) * 64 + Low(e[3])
  {
    CharDigits(c as int);
  }

  function Low(b: Byte): int {
    b - 0x80
  }

  lemma {:induction false} ContinuationsIgnored(bs: seq<Byte>)
    requires Continues(bs)
    ensures DecodeIgnore(bs) == ""
  {
    hide FirstChar, EncodeChar;
    if bs != [] {
      if FirstChar(bs).Some? { CharShape(FirstChar(bs).value); }
      ContinuationsIgnored(bs[1..]);
    }
  }

  /** A character cut short is ignored. */
  lemma CutIgnored(c: char, n: nat)
    requires n < |EncodeChar(c)|
    ensures DecodeIgnore(EncodeChar(c)[..n]) == ""
  {
    hide FirstChar, EncodeChar;
    var cut := EncodeChar(c)[..n];
    CharShape(c);
    if n > 0 {
      if FirstChar(cut).Some? { CharShape(FirstChar(cut).value); }
      assert forall i :: 0 <= i < |cut[1..]| ==> cut[1..][i] == EncodeChar(c)[1..][i];
      ContinuationsIgnored(cut[1..]);
    }
  }

  lemma IgnoreCons(c: char, rest: seq<Byte>)
    ensures DecodeIgnore(EncodeChar(c) + rest) == [c] + DecodeIgnore(rest)
  {
    hide FirstChar, EncodeChar;
    FirstCharIs(c, rest);
    assert (EncodeChar(c) + rest)[|EncodeChar(c)|..] == rest;
  }

  // ---------------------------------------------------------------------------
  // base64url

  predicate InAlphabet(c: char) {
    'A' <= c <= 'Z' || 'a' <= c <= 'z' || '0' <= c <= '9' || c == '-' || c == '_'
  }

  function Letter(n: int): (c: char)
    requires 0 <= n < 64
    ensures InAlphabet(c) && ValueOf(c) == n
  {
    if n < 26 then 'A' + n as char
    else if n < 52 then 'a' + (n - 26) as char
    else if n < 62 then '0' + (n - 52) as char
    else if n == 62 then '-' else '_'
  }

  function ValueOf(c: char): (n: int)
    requires InAlphabet(c)
    ensures 0 <= n < 64
  {
    if 'A' <= c <= 'Z' then c as int - 'A' as int
    else if 'a' <= c <= 'z' then c as int - 'a' as int + 26
    else if '0' <= c <= '9' then c as int - '0' as int + 52
    else if c == '-' then 62 else 63
  }

  /** base64.urlsafe_b64encode, with padding. */
  function Encode64(bs: seq<Byte>): string {
    if bs == [] then ""
    else if |bs| == 1 then [Letter(bs[0] / 4), Letter(bs[0] % 4 * 16), '=', '=']
    else if |bs| == 2 then
      [Letter(bs[0] / 4), Letter(bs[0] % 4 * 16 + bs[1] / 16), Letter(bs[1] % 16 * 4), '=']
    else
      [Letter(bs[0] / 4), Letter(bs[0] % 4 * 16 + bs[1] / 16), Letter(bs[1] % 16 * 4 + bs[2] / 64), Letter(bs[2] % 64)]
      + Encode64(bs[3..])
  }

  /** base64.urlsafe_b64decode on alphabet characters and final padding; None where Python
      raises binascii.Error. */
  function Decode64(s: string): Option<seq<Byte>> {
    if s == "" then Some([])
    else if |s| < 4 || !InAlphabet(s[0]) || !InAlphabet(s[1]) then None
    else
      var a, b := ValueOf(s[0]), ValueOf(s[1]);
      var x := a * 4 + b / 16;
      if s[2..] == "==" then Some([x])
      else if !InAlphabet(s[2]) then None
      else
        var c := ValueOf(s[2]);
        var y := b % 16 * 16 + c / 4;
        if s[3..] == "=" then Some([x, y])
        else if !InAlphabet(s[3]) then None
        else
          match Decode64(s[4..])
          case None => None
          case Some(rest) => Some([x, y, c % 4 * 64 + ValueOf(s[3])] + rest)
  }

  function DropPadding(s: string): string {
    if s != "" && s[|s| - 1] == '=' then DropPadding(s[..|s| - 1]) else s
  }

  function B64Url(raw: seq<Byte>): string {
    DropPadding(Encode64(raw))
  }

  function Padding(n: nat): string
    decreases (4 - n % 4) % 4
  {
    if n % 4 == 0 then "" else "=" + Padding(n + 1)
  }

  function B64UrlDecode(value: string): Option<seq<Byte>> {
    Decode64(value + Padding(|value|))
  }

  predicate Token(s: string) {
    forall c :: c in s ==> InAlphabet(c)
  }

  /** The text without its padding, group by group. */
  function Unpadded(bs: seq<Byte>): (s: string)
    ensures Token(s) && (bs != [] ==> s != "")
  {
    if bs == [] then ""
    else if |bs| == 1 then [Letter(bs[0] / 4), Letter(bs[0] % 4 * 16)]
    else if |bs| == 2 then [Letter(bs[0] / 4), Letter(bs[0] % 4 * 16 + bs[1] / 16), Letter(bs[1] % 16 * 4)]
    else
      [Letter(bs[0] / 4), Letter(bs[0] % 4 * 16 + bs[1] / 16), Letter(bs[1] % 16 * 4 + bs[2] / 64), Letter(bs[2] % 64)]
      + Unpadded(bs[3..])
  }

  /** Encoding pads the text to a multiple of four, and the padding is all that is dropped. */
  lemma {:induction false} PaddedIs(bs: seq<Byte>)
    ensures Encode64(bs) == Unpadded(bs) + Padding(|Unpadded(bs)|)
    ensures Padding(|Unpadded(bs)|) in {"", "=", "=="}
  {
    hide Letter, InAlphabet;
    var s := Unpadded(bs);
    if |bs| >= 3 {
      PaddedIs(bs[3..]);
      PaddingPeriod(|Unpadded(bs[3..])|);
    } else if |bs| == 1 {
      assert Padding(2) == "=" + Padding(3) && Padding(3) == "=" + Padding(4);
      assert Padding(2) == "==";
    } else if |bs| == 2 {
      assert Padding(3) == "=" + Padding(4);
      assert Padding(3) == "=";
    }
  }

  lemma {:induction false} PaddingPeriod(n: nat)
    ensures Padding(n + 4) == Padding(n)
    decreases (4 - n % 4) % 4
  {
    if n % 4 != 0 { PaddingPeriod(n + 1); }
  }

  lemma DropIs(s: string, pad: string)
    requires Token(s) && pad in {"", "=", "=="}
    ensures DropPadding(s + pad) == s
  {
    assert s == "" || s[|s| - 1] in s;
    assert (s + "==")[..|s| + 1] == s + "=" && (s + "=")[..|s|] == s && s + "" == s;
    assert DropPadding(s) == s;
    assert DropPadding(s + "=") == DropPadding(s);
    assert DropPadding(s + "==") == DropPadding(s + "=");
  }

  lemma {:induction false} Decodes(bs: seq<Byte>)
    ensures Decode64(Encode64(bs)) == Some(bs)
  {
    hide Letter, InAlphabet;
    if |bs| >= 3 {
      Decodes(bs[3..]);
      var s := Encode64(bs);
      Letters(bs);
      assert s[4..] == Encode64(bs[3..]);
      assert [bs[0], bs[1], bs[2]] + bs[3..] == bs;
      assert '=' != s[3] && '=' != s[2];
    } else if |bs| == 2 {
      Letters(bs);
      var s := Encode64(bs);
      assert s[2] != '=' && s[2..] != "==" && s[3..] == "=" && bs == [bs[0], bs[1]];
    } else if |bs| == 1 {
      Letters(bs);
      assert Encode64(bs)[2..] == "==" && bs == [bs[0]];
    }
  }

  lemma Letters(bs: seq<Byte>)
    requires bs != []
    ensures forall n :: 0 <= n < 64 ==> Letter(n) != '='
    ensures bs[0] / 4 * 4 + bs[0] % 4 * 16 / 16 == bs[0]
    ensures |bs| > 1 ==>
              var b := bs[0] % 4 * 16 + bs[1] / 16;
              bs[0] / 4 * 4 + b / 16 == bs[0] && b % 16 * 16 + bs[1] % 16 * 4 / 4 == bs[1]
    ensures |bs| > 2 ==>
              var b, c := bs[0] % 4 * 16 + bs[1] / 16, bs[1] % 16 * 4 + bs[2] / 64;
              b % 16 * 16 + c / 4 == bs[1] && c % 4 * 64 + bs[2] % 64 == bs[2]
  {}

  /** The letters are those of table 2 in section 5 of RFC 4648: capitals, small letters and
      digits in order, then minus and underline. */
  lemma LetterTable(n: int)
    requires 0 <= n < 63
    ensures Letter(0) == 'A' && Letter(26) == 'a' && Letter(52) == '0' && Letter(62) == '-' && Letter(63) == '_'
    ensures n !in {25, 51, 61, 62} ==> Letter(n + 1) as int == Letter(n) as int + 1
  {}

  function Value4(s: string): int
    requires |s| == 4 && Token(s)
  {
    ((ValueOf(s[0]) * 64 + ValueOf(s[1])) * 64 + ValueOf(s[2])) * 64 + ValueOf(s[3])
  }

  /** Three bytes and the four letters that encode them are the same 24-bit number. */
  lemma GroupIs(a: Byte, b: Byte, c: Byte, rest: seq<Byte>)
    ensures var s := Encode64([a, b, c] + rest);
            && |s| >= 4 && Token(s[..4]) && s[4..] == Encode64(rest)
            && Value4(s[..4]) == (a * 256 + b) * 256 + c
  {
    hide Letter, ValueOf;
    var bs := [a, b, c] + rest;
    assert bs[0] == a && bs[1] == b && bs[2] == c && bs[3..] == rest;
    var s := Encode64(bs);
    var four := [Letter(a / 4), Letter(a % 4 * 16 + b / 16), Letter(b % 16 * 4 + c / 64), Letter(c % 64)];
    assert s == four + Encode64(rest) && s[..4] == four && s[4..] == Encode64(rest);
    assert a == a / 4 * 4 + a % 4 && b == b / 16 * 16 + b % 16 && c == c / 64 * 64 + c % 64;
  }

  lemma ZeroLetter()
    ensures InAlphabet('A') && ValueOf('A') == 0
  {}

  /** One or two bytes at the end are padded with zero bits, and the text with equals signs. */
  lemma LastGroup(a: Byte, b: Byte)
    ensures var s := Encode64([a]);
            |s| == 4 && s[2..] == "==" && Token(s[..2]) && Value4(s[..2] + "AA") == a * 65536
    ensures var s := Encode64([a, b]);
            |s| == 4 && s[3..] == "=" && Token(s[..3]) && Value4(s[..3] + "A") == (a * 256 + b) * 256
  {
    hide Letter, ValueOf;
    ZeroLetter();
    var x, y := Letter(a / 4), Letter(a % 4 * 16);
    assert Encode64([a])[..2] + "AA" == [x, y, 'A', 'A'];
    var p, q := Letter(a % 4 * 16 + b / 16), Letter(b % 16 * 4);
    assert Encode64([a, b])[..3] + "A" == [x, p, q, 'A'];
    assert a == a / 4 * 4 + a % 4 && b == b / 16 * 16 + b % 16;
  }

  /** Unpadded base64url decoding inverts encoding on every byte string; the text uses only
      the alphabet. */
  lemma B64UrlRoundTrip(raw: seq<Byte>)
    ensures B64UrlDecode(B64Url(raw)) == Some(raw)
    ensures Token(B64Url(raw)) && (raw != [] ==> B64Url(raw) != "")
  {
    hide Encode64, Decode64, Unpadded, Token, DropPadding, Padding;
    PaddedIs(raw);
    DropIs(Unpadded(raw), Padding(|Unpadded(raw)|));
    Decodes(raw);
  }
}
