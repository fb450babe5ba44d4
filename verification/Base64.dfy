/** The chunk codec of `vh fs get` and `vh fs put` (core/include/protocols/shell/Transfer.hpp): padded base64 of at most
    CHUNK_BYTES bytes, decoded strictly. */
module Base64 {
  import opened Wrappers

  type Byte = x: int | 0 <= x < 256
  type Digit = x: int | 0 <= x < 64

  const CHUNK_BYTES := 262144
  const MAX_ENCODED := 4 * ((CHUNK_BYTES + 2) / 3)

  function Char(d: Digit): char {
    if d < 26 then 'A' + d as char
    else if d < 52 then 'a' + (d - 26) as char
    else if d < 62 then '0' + (d - 52) as char
    else if d == 62 then '+' else '/'
  }

  function Value(c: char): Option<Digit> {
    if 'A' <= c <= 'Z' then Some((c - 'A') as int)
    else if 'a' <= c <= 'z' then Some((c - 'a') as int + 26)
    else if '0' <= c <= '9' then Some((c - '0') as int + 52)
    else if c == '+' then Some(62) else if c == '/' then Some(63) else None
  }

  /** The digits of section 4 of RFC 4648, in their order. */
  const UPPER := "ABCDEFGHIJKLMNOPQRSTUVWXYZ"
  const LOWER := "abcdefghijklmnopqrstuvwxyz"
  const REST := "0123456789+/"

  function Alphabet(d: Digit): char {
    if d < 26 then UPPER[d] else if d < 52 then LOWER[d - 26] else REST[d - 52]
  }

  lemma UpperAt(i: nat)
    requires i < 26
    ensures UPPER[i] == 'A' + i as char
  {
  }

  lemma LowerAt(i: nat)
    requires i < 26
    ensures LOWER[i] == 'a' + i as char
  {
  }

  lemma RestAt(i: nat)
    requires i < 12
    ensures REST[i] == if i < 10 then '0' + i as char else if i == 10 then '+' else '/'
  {
  }

  /** A digit is written as its letter and read back from it, and nothing else is a digit. */
  lemma AlphabetExactly(d: Digit, c: char)
    ensures Char(d) == Alphabet(d) && (Value(c) == Some(d) <==> c == Alphabet(d))
    ensures Value(c).Some? <==> exists e: Digit :: Alphabet(e) == c
  {
    forall e: Digit ensures Alphabet(e) == Char(e) {
      if e < 26 { UpperAt(e); } else if e < 52 { LowerAt(e - 26); } else { RestAt(e - 52); }
    }
    CharValue(d);
    ValueChar(c);
    if Value(c).Some? { assert Alphabet(Value(c).value) == c; }
    forall e: Digit | Alphabet(e) == c ensures Value(c).Some? { CharValue(e); }
  }

  lemma CharValue(d: Digit)
    ensures Value(Char(d)) == Some(d) && Char(d) != '='
  {
  }

  lemma ValueChar(c: char)
    ensures Value(c).Some? ==> Char(Value(c).value) == c && c != '='
  {
  }

  // ---- one group of three bytes and four digits --------------------------------------------------------------

  type Word = x: int | 0 <= x < 0x100_0000

  function OfBytes(a: Byte, b: Byte, c: Byte): Word {
    (a * 256 + b) * 256 + c
  }

  function OfDigits(d0: Digit, d1: Digit, d2: Digit, d3: Digit): Word {
    ((d0 * 64 + d1) * 64 + d2) * 64 + d3
  }

  function Digit0(v: Word): Digit { v / 64 / 64 / 64 }
  function Digit1(v: Word): Digit { v / 64 / 64 % 64 }
  function Digit2(v: Word): Digit { v / 64 % 64 }
  function Digit3(v: Word): Digit { v % 64 }
  function Byte0(v: Word): Byte { v / 256 / 256 }
  function Byte1(v: Word): Byte { v / 256 % 256 }
  function Byte2(v: Word): Byte { v % 256 }

  lemma DigitsOf(v: Word)
    ensures OfDigits(Digit0(v), Digit1(v), Digit2(v), Digit3(v)) == v
  {
  }

  lemma BytesOf(v: Word)
    ensures OfBytes(Byte0(v), Byte1(v), Byte2(v)) == v
  {
  }

  lemma OfDigitsSplits(d0: Digit, d1: Digit, d2: Digit, d3: Digit)
    ensures var v := OfDigits(d0, d1, d2, d3); Digit0(v) == d0 && Digit1(v) == d1 && Digit2(v) == d2 && Digit3(v) == d3
  {
    var v := OfDigits(d0, d1, d2, d3);
    assert v / 64 == (d0 * 64 + d1) * 64 + d2;
    assert v / 64 / 64 == d0 * 64 + d1;
  }

  lemma OfBytesSplits(a: Byte, b: Byte, c: Byte)
    ensures var v := OfBytes(a, b, c); Byte0(v) == a && Byte1(v) == b && Byte2(v) == c
  {
    assert OfBytes(a, b, c) / 256 == a * 256 + b;
  }

  lemma Padded(a: Byte, b: Byte)
    ensures Digit3(OfBytes(a, b, 0)) == 0 && OfBytes(a, b, 0) % 256 == 0
    ensures Digit2(OfBytes(a, 0, 0)) == 0 && Digit3(OfBytes(a, 0, 0)) == 0 && OfBytes(a, 0, 0) % 65536 == 0
  {
    assert OfBytes(a, b, 0) == 64 * (4 * (a * 256 + b));
    assert OfBytes(a, 0, 0) == 64 * (64 * (16 * a));
  }

  function Full(v: Word): string {
    [Char(Digit0(v)), Char(Digit1(v)), Char(Digit2(v)), Char(Digit3(v))]
  }

  // ---- whole chunks ------------------------------------------------------------------------------------------

  function Encoded(bytes: seq<Byte>): string {
    if |bytes| == 0 then ""
    else if |bytes| == 1 then var v := OfBytes(bytes[0], 0, 0); [Char(Digit0(v)), Char(Digit1(v)), '=', '=']
    else if |bytes| == 2 then
      var v := OfBytes(bytes[0], bytes[1], 0);
      [Char(Digit0(v)), Char(Digit1(v)), Char(Digit2(v)), '=']
    else Full(OfBytes(bytes[0], bytes[1], bytes[2])) + Encoded(bytes[3..])
  }

  function Groups(n: nat): nat {
    if n == 0 then 0 else if n <= 3 then 1 else 1 + Groups(n - 3)
  }

  lemma {:induction false} GroupsOf(n: nat)
    ensures Groups(n) == (n + 2) / 3
  {
    if n > 3 { GroupsOf(n - 3); }
  }

  lemma {:induction false} EncodedGroups(bytes: seq<Byte>)
    ensures |Encoded(bytes)| == 4 * Groups(|bytes|)
  {
    if |bytes| >= 3 { EncodedGroups(bytes[3..]); }
  }

  lemma EncodedLength(bytes: seq<Byte>)
    ensures |Encoded(bytes)| == 4 * ((|bytes| + 2) / 3)
  {
    EncodedGroups(bytes);
    GroupsOf(|bytes|);
  }

  function DigitOr0(c: char, counts: bool): Option<Digit> {
    if counts then Value(c) else Some(0)
  }

  /** The word of a group whose last `pad` characters are left out, when every other one is a digit. */
  function GroupWord(g: string, pad: nat): Option<Word>
    requires |g| == 4 && pad <= 2
  {
    var (d0, d1) := (Value(g[0]), Value(g[1]));
    var (d2, d3) := (DigitOr0(g[2], pad < 2), DigitOr0(g[3], pad < 1));
    if d0.None? || d1.None? || d2.None? || d3.None? then None
    else Some(OfDigits(d0.value, d1.value, d2.value, d3.value))
  }

  /** The bytes of a word, without the last `pad`. */
  function BytesIn(v: Word, pad: nat): seq<Byte> {
    if pad == 0 then [Byte0(v), Byte1(v), Byte2(v)] else if pad == 1 then [Byte0(v), Byte1(v)] else [Byte0(v)]
  }

  function Pad(g: string): nat
    requires |g| == 4
  {
    (if g[3] == '=' then 1 else 0) + (if g[2] == '=' then 1 else 0)
  }

  /** The bytes of one group, the last one of the text or not. */
  function GroupBytes(g: string, last: bool): Option<seq<Byte>>
    requires |g| == 4
  {
    var pad := if last then Pad(g) else 0;
    if pad == 1 && g[2] == '=' then None
    else
      match GroupWord(g, pad)
      case None => None
      case Some(v) =>
        if (pad == 2 && v % 65536 != 0) || (pad == 1 && v % 256 != 0) then None
        else Some(BytesIn(v, pad))
  }

  function Prepend(head: seq<Byte>, tail: Option<seq<Byte>>): Option<seq<Byte>> {
    match tail case None => None case Some(t) => Some(head + t)
  }

  function Decoded(s: string): Option<seq<Byte>> {
    if s == "" then Some([])
    else if |s| < 4 then None
    else match GroupBytes(s[..4], |s| == 4) case None => None case Some(head) => Prepend(head, Decoded(s[4..]))
  }

  function Chunk(s: string): Option<seq<Byte>> {
    if |s| % 4 != 0 || |s| > MAX_ENCODED then None
    else match Decoded(s) case None => None case Some(b) => if |b| > CHUNK_BYTES then None else Some(b)
  }

  // ---- round trips -------------------------------------------------------------------------------------------

  lemma DigitsRead(v: Word)
    ensures Value(Char(Digit0(v))) == Some(Digit0(v)) && Value(Char(Digit1(v))) == Some(Digit1(v))
    ensures Value(Char(Digit2(v))) == Some(Digit2(v)) && Value(Char(Digit3(v))) == Some(Digit3(v))
    ensures Char(Digit2(v)) != '=' && Char(Digit3(v)) != '='
  {
    CharValue(Digit0(v)); CharValue(Digit1(v)); CharValue(Digit2(v)); CharValue(Digit3(v));
  }

  lemma FullDecodes(a: Byte, b: Byte, c: Byte, last: bool)
    ensures GroupBytes(Full(OfBytes(a, b, c)), last) == Some([a, b, c])
  {
    var v := OfBytes(a, b, c);
    DigitsRead(v); DigitsOf(v); OfBytesSplits(a, b, c);
    assert GroupWord(Full(v), 0) == Some(v);
  }

  lemma TwoDecode(a: Byte, b: Byte)
    ensures GroupBytes(Encoded([a, b]), true) == Some([a, b])
  {
    var v := OfBytes(a, b, 0);
    DigitsRead(v); DigitsOf(v); OfBytesSplits(a, b, 0); Padded(a, b);
    assert GroupWord(Encoded([a, b]), 1) == Some(v);
  }

  lemma OneDecodes(a: Byte)
    ensures GroupBytes(Encoded([a]), true) == Some([a])
  {
    var v := OfBytes(a, 0, 0);
    DigitsRead(v); DigitsOf(v); OfBytesSplits(a, 0, 0); Padded(a, 0);
    assert GroupWord(Encoded([a]), 2) == Some(v);
  }

  lemma DecodedCons(g: string, rest: string)
    requires |g| == 4
    ensures Decoded(g + rest) ==
      match GroupBytes(g, rest == "") case None => None case Some(head) => Prepend(head, Decoded(rest))
  {
    assert (g + rest)[..4] == g && (g + rest)[4..] == rest;
  }

  lemma EncodedCons(head: seq<Byte>, tail: seq<Byte>)
    requires |head| == 3
    ensures Encoded(head + tail) == Full(OfBytes(head[0], head[1], head[2])) + Encoded(tail)
  {
    assert (head + tail)[3..] == tail;
  }

  lemma LastDecodes(g: string, bytes: seq<Byte>)
    requires |g| == 4 && GroupBytes(g, true) == Some(bytes)
    ensures Decoded(g) == Some(bytes)
  {
    DecodedCons(g, "");
    assert g + "" == g && bytes + [] == bytes;
  }

  lemma ShortDecodes(bytes: seq<Byte>)
    requires |bytes| == 1 || |bytes| == 2
    ensures Decoded(Encoded(bytes)) == Some(bytes)
  {
    if |bytes| == 1 {
      assert bytes == [bytes[0]];
      OneDecodes(bytes[0]);
    } else {
      assert bytes == [bytes[0], bytes[1]];
      TwoDecode(bytes[0], bytes[1]);
    }
    LastDecodes(Encoded(bytes), bytes);
  }

  lemma HeadDecodes(head: seq<Byte>, last: bool)
    requires |head| == 3
    ensures GroupBytes(Full(OfBytes(head[0], head[1], head[2])), last) == Some(head)
  {
    FullDecodes(head[0], head[1], head[2], last);
    assert head == [head[0], head[1], head[2]];
  }

  /** Three bytes in front of bytes that come back come back too. */
  lemma LongDecodes(head: seq<Byte>, tail: seq<Byte>)
    requires |head| == 3 && Decoded(Encoded(tail)) == Some(tail)
    ensures Decoded(Encoded(head + tail)) == Some(head + tail)
  {
    var g, rest := Full(OfBytes(head[0], head[1], head[2])), Encoded(tail);
    HeadDecodes(head, rest == "");
    EncodedCons(head, tail);
    DecodedCons(g, rest);
  }

  lemma {:induction false} DecodeEncode(bytes: seq<Byte>)
    ensures Decoded(Encoded(bytes)) == Some(bytes)
  {
    if |bytes| == 1 || |bytes| == 2 {
      ShortDecodes(bytes);
    } else if |bytes| >= 3 {
      DecodeEncode(bytes[3..]);
      assert bytes[..3] + bytes[3..] == bytes;
      LongDecodes(bytes[..3], bytes[3..]);
    }
  }

  /** A group that decodes is the encoding of what it decodes to. */
  lemma GroupCanonical(g: string, last: bool)
    requires |g| == 4 && GroupBytes(g, last).Some?
    ensures Encoded(GroupBytes(g, last).value) == g
    ensures !last ==> |GroupBytes(g, last).value| == 3
  {
    var pad := if last then Pad(g) else 0;
    ValueChar(g[0]); ValueChar(g[1]); ValueChar(g[2]); ValueChar(g[3]);
    GroupDigits(g, pad);
    GroupEncodes(g, pad, GroupWord(g, pad).value);
  }

  lemma GroupDigits(g: string, pad: nat)
    requires |g| == 4 && pad <= 2 && GroupWord(g, pad).Some?
    ensures var v := GroupWord(g, pad).value; Char(Digit0(v)) == g[0] && Char(Digit1(v)) == g[1]
    ensures var v := GroupWord(g, pad).value;
      (pad < 2 ==> Char(Digit2(v)) == g[2]) && (pad < 1 ==> Char(Digit3(v)) == g[3])
  {
    ValueChar(g[0]); ValueChar(g[1]); ValueChar(g[2]); ValueChar(g[3]);
    OfDigitsSplits(
      Value(g[0]).value, Value(g[1]).value, DigitOr0(g[2], pad < 2).value, DigitOr0(g[3], pad < 1).value);
  }

  lemma LowZero(v: Word)
    ensures v % 256 == 0 ==> v == OfBytes(Byte0(v), Byte1(v), 0)
    ensures v % 65536 == 0 ==> v == OfBytes(Byte0(v), 0, 0)
  {
    BytesOf(v);
    assert v == 65536 * Byte0(v) + (256 * Byte1(v) + Byte2(v));
  }

  lemma ThreeEncode(v: Word)
    ensures Encoded([Byte0(v), Byte1(v), Byte2(v)]) == Full(v)
  {
    BytesOf(v);
    var bytes := [Byte0(v), Byte1(v), Byte2(v)];
    EncodedCons(bytes, []);
    assert bytes + [] == bytes && Full(v) + "" == Full(v);
  }

  lemma TwoEncode(v: Word)
    requires v % 256 == 0
    ensures Encoded([Byte0(v), Byte1(v)]) == [Char(Digit0(v)), Char(Digit1(v)), Char(Digit2(v)), '=']
  {
    LowZero(v);
  }

  lemma OneEncodes(v: Word)
    requires v % 65536 == 0
    ensures Encoded([Byte0(v)]) == [Char(Digit0(v)), Char(Digit1(v)), '=', '=']
  {
    LowZero(v);
  }

  lemma GroupEncodes(g: string, pad: nat, v: Word)
    requires |g| == 4 && pad <= 2 && g[0] == Char(Digit0(v)) && g[1] == Char(Digit1(v))
    requires g[2] == if pad < 2 then Char(Digit2(v)) else '='
    requires g[3] == if pad < 1 then Char(Digit3(v)) else '='
    requires (pad == 2 ==> v % 65536 == 0) && (pad == 1 ==> v % 256 == 0)
    ensures Encoded(BytesIn(v, pad)) == g
  {
    assert g == [g[0], g[1], g[2], g[3]];
    if pad == 0 {
      ThreeEncode(v);
    } else if pad == 1 {
      TwoEncode(v);
    } else {
      OneEncodes(v);
    }
  }

  lemma {:induction false} EncodeDecode(s: string)
    requires Decoded(s).Some?
    ensures Encoded(Decoded(s).value) == s
  {
    if s != "" {
      var g, rest := s[..4], s[4..];
      assert g + rest == s;
      DecodedCons(g, rest);
      var head := GroupBytes(g, rest == "").value;
      GroupCanonical(g, rest == "");
      EncodeDecode(rest);
      if rest == "" {
        assert head + [] == head && g + "" == g;
      } else {
        EncodedCons(head, []);
        assert head + [] == head;
        EncodedCons(head, Decoded(rest).value);
      }
    }
  }

  lemma Fits(n: nat)
    requires n <= CHUNK_BYTES
    ensures 4 * ((n + 2) / 3) % 4 == 0 && 4 * ((n + 2) / 3) <= MAX_ENCODED
  {
  }

  lemma ChunkAccepts(s: string, bytes: seq<Byte>)
    requires Decoded(s) == Some(bytes) && |bytes| <= CHUNK_BYTES && |s| % 4 == 0 && |s| <= MAX_ENCODED
    ensures Chunk(s) == Some(bytes)
  {
  }

  lemma ChunkOf(bytes: seq<Byte>)
    requires |bytes| <= CHUNK_BYTES
    ensures Chunk(Encoded(bytes)) == Some(bytes)
  {
    EncodedLength(bytes);
    DecodeEncode(bytes);
    ChunkFits(Encoded(bytes), bytes);
  }

  lemma ChunkFits(s: string, bytes: seq<Byte>)
    requires |s| == 4 * ((|bytes| + 2) / 3) && Decoded(s) == Some(bytes) && |bytes| <= CHUNK_BYTES
    ensures Chunk(s) == Some(bytes)
  {
    Fits(|bytes|);
    ChunkAccepts(s, bytes);
  }

  lemma ChunkCanonical(s: string)
    requires Chunk(s).Some?
    ensures Encoded(Chunk(s).value) == s && |Chunk(s).value| <= CHUNK_BYTES
  {
    EncodeDecode(s);
  }

  /** A text is accepted exactly when it is the encoding of at most 256 KiB, and as those bytes. */
  lemma ChunkExact(s: string, bytes: seq<Byte>)
    ensures Chunk(s) == Some(bytes) <==> s == Encoded(bytes) && |bytes| <= 262144
  {
    if Chunk(s).Some? { ChunkCanonical(s); }
    if |bytes| <= CHUNK_BYTES { ChunkOf(bytes); }
  }

  // ---- the loops ---------------------------------------------------------------------------------------------

  method Encode(bytes: seq<Byte>) returns (out: string)
    ensures out == Encoded(bytes)
  {
    out := "";
    var i := 0;
    while i + 3 <= |bytes|
      invariant 0 <= i <= |bytes| && out + Encoded(bytes[i..]) == Encoded(bytes)
    {
      var v := OfBytes(bytes[i], bytes[i + 1], bytes[i + 2]);
      ghost var rest := bytes[i..];
      assert rest[3..] == bytes[i + 3..];
      assert out + (Full(v) + Encoded(rest[3..])) == (out + Full(v)) + Encoded(bytes[i + 3..]);
      out := out + [Char(Digit0(v)), Char(Digit1(v)), Char(Digit2(v)), Char(Digit3(v))];
      i := i + 3;
    }
    var rest := |bytes| - i;
    if rest > 0 {
      var v := OfBytes(bytes[i], if rest == 2 then bytes[i + 1] else 0, 0);
      out := out + [Char(Digit0(v)), Char(Digit1(v)), if rest == 2 then Char(Digit2(v)) else '=', '='];
    } else {
      assert bytes[i..] == [];
    }
  }

  /** The word of one group, digit by digit. */
  method Accumulate(s: string, i: nat, pad: nat) returns (word: Option<Word>)
    requires i + 4 <= |s| && pad <= 2
    ensures word == GroupWord(s[i..i + 4], pad)
  {
    var v: int, k := 0, 0;
    while k < 4
      invariant 0 <= k <= 4
      invariant k >= 1 ==> Value(s[i]).Some?
      invariant k >= 2 ==> Value(s[i + 1]).Some?
      invariant k >= 3 && pad < 2 ==> Value(s[i + 2]).Some?
      invariant k == 0 ==> v == 0
      invariant k == 1 ==> v == Value(s[i]).value
      invariant k == 2 ==> v == Value(s[i]).value * 64 + Value(s[i + 1]).value
      invariant k == 3 ==>
        v == (Value(s[i]).value * 64 + Value(s[i + 1]).value) * 64 + DigitOr0(s[i + 2], pad < 2).value
      invariant k == 4 ==> 0 <= v < 0x100_0000 && Some(v) == GroupWord(s[i..i + 4], pad)
    {
      if k >= 4 - pad {
        v := v * 64;
      } else {
        var d := Value(s[i + k]);
        if d.None? { return None; }
        v := v * 64 + d.value;
      }
      k := k + 1;
    }
    word := Some(v);
  }

  lemma Advance(s: string, i: nat, out: seq<Byte>)
    requires i + 4 <= |s|
    ensures Prepend(out, Decoded(s[i..])) ==
      match GroupBytes(s[i..i + 4], i + 4 == |s|)
      case None => None
      case Some(head) => Prepend(out + head, Decoded(s[i + 4..]))
  {
    assert s[i..] == s[i..i + 4] + s[i + 4..];
    DecodedCons(s[i..i + 4], s[i + 4..]);
    match GroupBytes(s[i..i + 4], i + 4 == |s|)
    case None =>
    case Some(head) =>
      match Decoded(s[i + 4..])
      case None =>
      case Some(tail) => assert out + (head + tail) == (out + head) + tail;
  }

  method DecodeGroup(s: string, i: nat) returns (r: Option<seq<Byte>>)
    requires i + 4 <= |s|
    ensures r == GroupBytes(s[i..i + 4], i + 4 == |s|)
  {
    var last := i + 4 == |s|;
    var pad := if last then (if s[i + 3] == '=' then 1 else 0) + (if s[i + 2] == '=' then 1 else 0) else 0;
    if pad == 1 && s[i + 2] == '=' { return None; }
    var word := Accumulate(s, i, pad);
    if word.None? { return None; }
    var v := word.value;
    if pad == 2 && v % 65536 != 0 { return None; }
    if pad == 1 && v % 256 != 0 { return None; }
    var out := [Byte0(v)];
    if pad < 2 { out := out + [Byte1(v)]; }
    if pad < 1 { out := out + [Byte2(v)]; }
    assert out == BytesIn(v, pad);
    r := Some(out);
  }

  method DecodeGroups(s: string) returns (r: Option<seq<Byte>>)
    requires |s| % 4 == 0
    ensures r == Decoded(s)
  {
    var out: seq<Byte> := [];
    var i := 0;
    ghost var left := |s| / 4;
    assert s[0..] == s;
    assert Decoded(s).Some? ==> [] + Decoded(s).value == Decoded(s).value;
    while i < |s|
      invariant 0 <= left && i + 4 * left == |s| && Decoded(s) == Prepend(out, Decoded(s[i..]))
    {
      Advance(s, i, out);
      var head := DecodeGroup(s, i);
      if head.None? { return None; }
      out := out + head.value;
      i := i + 4;
      left := left - 1;
    }
    assert s[i..] == "" && out + [] == out;
    r := Some(out);
  }

  method DecodeChunk(s: string) returns (r: Option<seq<Byte>>)
    ensures r == Chunk(s)
  {
    if |s| % 4 != 0 || |s| > MAX_ENCODED { return None; }
    r := DecodeGroups(s);
    if r.Some? && |r.value| > CHUNK_BYTES { r := None; }
  }
}
