/** The browser's `atob`, as used by the PCM decoder: the forgiving-base64
    decode of the WHATWG Infra Standard over the alphabet of section 4 of
    RFC 4648. It yields a "binary string" (every character code below 256)
    or fails (atob throws `InvalidCharacterError`).

    `Encode` is the canonical, padded encoding of section 4 of RFC 4648;
    it is the partner of `Atob` for the round-trip lemma. */
module Base64 {
  import opened Results

  type Byte = x: int | 0 <= x < 256

  /** One of the 64 characters of the base64 alphabet (A-Z, a-z, 0-9, '+', '/'). */
  predicate IsAlphabetChar(c: char) {
    ('A' <= c <= 'Z') || ('a' <= c <= 'z') || ('0' <= c <= '9') || c == '+' || c == '/'
  }

  predicate AllAlphabet(s: string) {
    forall i :: 0 <= i < |s| ==> IsAlphabetChar(s[i])
  }

  /** ASCII whitespace: TAB, LF, FF, CR and SPACE. */
  predicate IsAsciiWhitespace(c: char) {
    c == '\t' || c == '\n' || c == '\U{000C}' || c == '\r' || c == ' '
  }

  /** The alphabet character that stands for the 6-bit value `v`. */
  function EncodeChar(v: nat): (c: char)
    requires v < 64
    ensures IsAlphabetChar(c)
  {
    if v < 26 then (v + 'A' as int) as char
    else if v < 52 then (v - 26 + 'a' as int) as char
    else if v < 62 then (v - 52 + '0' as int) as char
    else if v == 62 then '+'
    else '/'
  }

  /** The 6-bit value an alphabet character stands for. */
  function CharValue(c: char): (v: nat)
    requires IsAlphabetChar(c)
    ensures v < 64 && EncodeChar(v) == c
  {
    if 'A' <= c <= 'Z' then c as int - 'A' as int
    else if 'a' <= c <= 'z' then c as int - 'a' as int + 26
    else if '0' <= c <= '9' then c as int - '0' as int + 52
    else if c == '+' then 62
    else 63
  }

  lemma CharValueOfEncodeChar(v: nat)
    requires v < 64
    ensures CharValue(EncodeChar(v)) == v
  {
  }

  lemma AllAlphabetAppend(a: string, b: string)
    requires AllAlphabet(a) && AllAlphabet(b)
    ensures AllAlphabet(a + b)
  {
    forall i | 0 <= i < |a + b| ensures IsAlphabetChar((a + b)[i]) {
      if i < |a| { assert (a + b)[i] == a[i]; } else { assert (a + b)[i] == b[i - |a|]; }
    }
  }

  /** A binary string: the string whose character codes are the bytes. */
  function BinaryString(bytes: seq<Byte>): (s: string)
    ensures |s| == |bytes|
    ensures forall i :: 0 <= i < |s| ==> s[i] as int == bytes[i]
  {
    seq(|bytes|, i requires 0 <= i < |bytes| => bytes[i] as char)
  }

  predicate IsBinaryString(s: string) {
    forall i :: 0 <= i < |s| ==> s[i] as int < 256
  }

  // ---------------------------------------------------------------------
  // Forgiving-base64 decode

  /** Step 1: drop every ASCII whitespace character. */
  function RemoveWhitespace(s: string): (r: string)
    ensures |r| <= |s|
    ensures forall i :: 0 <= i < |r| ==> !IsAsciiWhitespace(r[i])
  {
    if s == [] then []
    else (if IsAsciiWhitespace(s[0]) then [] else [s[0]]) + RemoveWhitespace(s[1..])
  }

  /** Step 2: when the length is a multiple of 4, drop one or two trailing '='. */
  function RemovePadding(d: string): (r: string)
    ensures |r| <= |d|
    ensures r == d[..|r|]
  {
    if |d| % 4 == 0 && |d| >= 2 && d[|d| - 1] == '=' && d[|d| - 2] == '=' then d[..|d| - 2]
    else if |d| % 4 == 0 && |d| >= 1 && d[|d| - 1] == '=' then d[..|d| - 1]
    else d
  }

  /** The three bytes carried by four sextets; a shorter tail keeps only
      its whole leading bytes and discards the leftover bits. */
  function HighByte(v0: nat, v1: nat): Byte
    requires v0 < 64 && v1 < 64
  {
    v0 * 4 + v1 / 16
  }

  function MiddleByte(v1: nat, v2: nat): Byte
    requires v1 < 64 && v2 < 64
  {
    (v1 % 16) * 16 + v2 / 4
  }

  function LowByte(v2: nat, v3: nat): Byte
    requires v2 < 64 && v3 < 64
  {
    (v2 % 4) * 64 + v3
  }

  /** Four characters carry three bytes. */
  function DecodeQuad(c0: char, c1: char, c2: char, c3: char): (r: string)
    requires IsAlphabetChar(c0) && IsAlphabetChar(c1) && IsAlphabetChar(c2) && IsAlphabetChar(c3)
    ensures |r| == 3 && IsBinaryString(r)
  {
    var v0, v1, v2, v3 := CharValue(c0), CharValue(c1), CharValue(c2), CharValue(c3);
    [HighByte(v0, v1) as char, MiddleByte(v1, v2) as char, LowByte(v2, v3) as char]
  }

  /** A last group of three characters carries two bytes (2 bits discarded). */
  function DecodeTriple(c0: char, c1: char, c2: char): (r: string)
    requires IsAlphabetChar(c0) && IsAlphabetChar(c1) && IsAlphabetChar(c2)
    ensures |r| == 2 && IsBinaryString(r)
  {
    var v0, v1, v2 := CharValue(c0), CharValue(c1), CharValue(c2);
    [HighByte(v0, v1) as char, MiddleByte(v1, v2) as char]
  }

  /** A last group of two characters carries one byte (4 bits discarded). */
  function DecodePair(c0: char, c1: char): (r: string)
    requires IsAlphabetChar(c0) && IsAlphabetChar(c1)
    ensures |r| == 1 && IsBinaryString(r)
  {
    [HighByte(CharValue(c0), CharValue(c1)) as char]
  }

  /** Steps 5 to 8: decode alphabet characters four at a time. */
  function DecodeGroups(d: string): (r: string)
    requires |d| % 4 != 1 && AllAlphabet(d)
    ensures IsBinaryString(r)
    decreases |d|
  {
    if |d| >= 4 then DecodeQuad(d[0], d[1], d[2], d[3]) + DecodeGroups(d[4..])
    else if |d| == 3 then DecodeTriple(d[0], d[1], d[2])
    else if |d| == 2 then DecodePair(d[0], d[1])
    else []
  }

  /** `atob(s)`: `None` where the browser throws. */
  function Atob(s: string): (r: Option<string>)
    ensures r.Some? ==> IsBinaryString(r.value)
  {
    var d := RemovePadding(RemoveWhitespace(s));
    if |d| % 4 == 1 || !AllAlphabet(d) then None
    else Some(DecodeGroups(d))
  }

  lemma {:induction false} RemoveWhitespaceKeeps(s: string, i: nat)
    requires i < |s| && !IsAsciiWhitespace(s[i])
    ensures s[i] in RemoveWhitespace(s)
  {
    if i > 0 {
      RemoveWhitespaceKeeps(s[1..], i - 1);
    }
  }

  lemma RemovePaddingKeeps(w: string, j: nat)
    requires j < |w| && w[j] != '='
    ensures j < |RemovePadding(w)| && RemovePadding(w)[j] == w[j]
  {
  }

  /** A character that is neither in the alphabet, nor whitespace, nor '='
      makes `atob` throw, wherever it stands. */
  lemma AtobRejectsForeignChar(s: string, i: nat)
    requires i < |s| && !IsAlphabetChar(s[i]) && !IsAsciiWhitespace(s[i]) && s[i] != '='
    ensures Atob(s) == None
  {
    var w := RemoveWhitespace(s);
    RemoveWhitespaceKeeps(s, i);
    var j :| 0 <= j < |w| && w[j] == s[i];
    RemovePaddingKeeps(w, j);
    var d := RemovePadding(w);
    assert !IsAlphabetChar(d[j]);
    assert !AllAlphabet(d);
  }

  /** The number of bytes `atob` yields: three per four characters left
      after whitespace and padding are removed, less the partial group's
      unused bits. */
  lemma AtobLength(s: string)
    requires Atob(s).Some?
    ensures var d := RemovePadding(RemoveWhitespace(s));
            |Atob(s).value| == |d| / 4 * 3 + (if |d| % 4 == 0 then 0 else |d| % 4 - 1)
  {
    DecodeGroupsLength(RemovePadding(RemoveWhitespace(s)));
  }

  lemma {:induction false} DecodeGroupsLength(d: string)
    requires |d| % 4 != 1 && AllAlphabet(d)
    ensures |DecodeGroups(d)| == |d| / 4 * 3 + (if |d| % 4 == 0 then 0 else |d| % 4 - 1)
    decreases |d|
  {
    if |d| >= 4 {
      DecodeGroupsLength(d[4..]);
    }
  }

  // ---------------------------------------------------------------------
  // Canonical encoding (section 4 of RFC 4648)

  /** Three bytes as four characters. */
  function EncodeGroup(b0: Byte, b1: Byte, b2: Byte): (s: string)
    ensures |s| == 4 && AllAlphabet(s)
  {
    [EncodeChar(b0 / 4), EncodeChar((b0 % 4) * 16 + b1 / 16),
     EncodeChar((b1 % 16) * 4 + b2 / 64), EncodeChar(b2 % 64)]
  }

  /** A last one or two bytes as two or three characters, zero-filled. */
  function EncodeTail(bytes: seq<Byte>): (s: string)
    requires |bytes| < 3
    ensures |s| == (if bytes == [] then 0 else |bytes| + 1) && AllAlphabet(s)
  {
    if |bytes| == 2 then
      [EncodeChar(bytes[0] / 4), EncodeChar((bytes[0] % 4) * 16 + bytes[1] / 16), EncodeChar((bytes[1] % 16) * 4)]
    else if |bytes| == 1 then
      [EncodeChar(bytes[0] / 4), EncodeChar((bytes[0] % 4) * 16)]
    else
      []
  }

  lemma Mod4Shift(x: nat)
    ensures (4 + x) % 4 == x % 4
  {
  }

  /** The encoding without its trailing '=' padding. */
  function EncodeUnpadded(bytes: seq<Byte>): (s: string)
    ensures AllAlphabet(s) && |s| % 4 != 1
  {
    if |bytes| >= 3 then
      var group, rest := EncodeGroup(bytes[0], bytes[1], bytes[2]), EncodeUnpadded(bytes[3..]);
      AllAlphabetAppend(group, rest);
      Mod4Shift(|rest|);
      group + rest
    else EncodeTail(bytes)
  }

  /** Four characters per three bytes, and two or three for a last partial group. */
  lemma {:induction false} EncodeUnpaddedLength(bytes: seq<Byte>)
    ensures |EncodeUnpadded(bytes)| == |bytes| / 3 * 4 + (if |bytes| % 3 == 0 then 0 else |bytes| % 3 + 1)
    decreases |bytes|
  {
    if |bytes| >= 3 {
      EncodeUnpaddedLength(bytes[3..]);
    }
  }

  /** The canonical encoding: padded with '=' to a multiple of four characters. */
  function Encode(bytes: seq<Byte>): (s: string)
    ensures |s| % 4 == 0
  {
    EncodeUnpaddedLength(bytes);
    EncodeUnpadded(bytes) + (if |bytes| % 3 == 1 then "==" else if |bytes| % 3 == 2 then "=" else "")
  }

  // ---------------------------------------------------------------------
  // Round trip

  lemma {:induction false} RemoveWhitespaceKeepsClean(s: string)
    requires forall i :: 0 <= i < |s| ==> !IsAsciiWhitespace(s[i])
    ensures RemoveWhitespace(s) == s
  {
    if s != [] {
      RemoveWhitespaceKeepsClean(s[1..]);
    }
  }

  lemma GroupRoundTrip(b0: Byte, b1: Byte, b2: Byte)
    ensures HighByte(b0 / 4, (b0 % 4) * 16 + b1 / 16) == b0
    ensures MiddleByte((b0 % 4) * 16 + b1 / 16, (b1 % 16) * 4 + b2 / 64) == b1
    ensures LowByte((b1 % 16) * 4 + b2 / 64, b2 % 64) == b2
  {
  }

  /** One full group of three bytes survives encoding and decoding. */
  lemma GroupDecodes(b0: Byte, b1: Byte, b2: Byte)
    ensures var q := EncodeGroup(b0, b1, b2); DecodeQuad(q[0], q[1], q[2], q[3]) == BinaryString([b0, b1, b2])
  {
    CharValueOfEncodeChar(b0 / 4);
    CharValueOfEncodeChar((b0 % 4) * 16 + b1 / 16);
    CharValueOfEncodeChar((b1 % 16) * 4 + b2 / 64);
    CharValueOfEncodeChar(b2 % 64);
    GroupRoundTrip(b0, b1, b2);
  }

  /** A last partial group of one or two bytes survives encoding and decoding. */
  lemma TailDecodes(bytes: seq<Byte>)
    requires |bytes| < 3
    ensures DecodeGroups(EncodeTail(bytes)) == BinaryString(bytes)
  {
    if |bytes| == 2 {
      var b0, b1 := bytes[0], bytes[1];
      CharValueOfEncodeChar(b0 / 4);
      CharValueOfEncodeChar((b0 % 4) * 16 + b1 / 16);
      CharValueOfEncodeChar((b1 % 16) * 4);
      GroupRoundTrip(b0, b1, 0);
      var t := EncodeTail(bytes);
      assert DecodeGroups(t) == DecodeTriple(t[0], t[1], t[2]);
    } else if |bytes| == 1 {
      CharValueOfEncodeChar(bytes[0] / 4);
      CharValueOfEncodeChar((bytes[0] % 4) * 16);
      GroupRoundTrip(bytes[0], 0, 0);
      var t := EncodeTail(bytes);
      assert DecodeGroups(t) == DecodePair(t[0], t[1]);
    }
  }

  lemma DecodeGroupsAppend(q: string, rest: string)
    requires |q| == 4 && AllAlphabet(q) && AllAlphabet(rest) && |rest| % 4 != 1
    ensures AllAlphabet(q + rest)
    ensures DecodeGroups(q + rest) == DecodeQuad(q[0], q[1], q[2], q[3]) + DecodeGroups(rest)
  {
    AllAlphabetAppend(q, rest);
    assert (q + rest)[4..] == rest;
  }

  lemma BinaryStringSplit(bytes: seq<Byte>)
    requires |bytes| >= 3
    ensures BinaryString(bytes) == BinaryString([bytes[0], bytes[1], bytes[2]]) + BinaryString(bytes[3..])
  {
    var l, r := BinaryString([bytes[0], bytes[1], bytes[2]]), BinaryString(bytes[3..]);
    assert forall i :: 0 <= i < |bytes| ==> BinaryString(bytes)[i] == (l + r)[i] by {
      forall i | 0 <= i < |bytes| ensures BinaryString(bytes)[i] == (l + r)[i] {
        if i >= 3 { assert (l + r)[i] == r[i - 3]; }
      }
    }
  }

  /** One step of the induction: a leading group, then the rest. */
  lemma DecodeGroupsStep(bytes: seq<Byte>)
    requires |bytes| >= 3
    requires DecodeGroups(EncodeUnpadded(bytes[3..])) == BinaryString(bytes[3..])
    ensures DecodeGroups(EncodeUnpadded(bytes)) == BinaryString(bytes)
  {
    var q, rest := EncodeGroup(bytes[0], bytes[1], bytes[2]), EncodeUnpadded(bytes[3..]);
    assert EncodeUnpadded(bytes) == q + rest;
    DecodeGroupsAppend(q, rest);
    GroupDecodes(bytes[0], bytes[1], bytes[2]);
    BinaryStringSplit(bytes);
  }

  /** Decoding the unpadded encoding gives back the bytes. */
  lemma {:induction false} DecodeGroupsOfEncodeUnpadded(bytes: seq<Byte>)
    ensures DecodeGroups(EncodeUnpadded(bytes)) == BinaryString(bytes)
    decreases |bytes|
  {
    if |bytes| >= 3 {
      DecodeGroupsOfEncodeUnpadded(bytes[3..]);
      DecodeGroupsStep(bytes);
    } else {
      TailDecodes(bytes);
    }
  }

  lemma EncodeHasNoWhitespace(bytes: seq<Byte>)
    ensures forall i :: 0 <= i < |Encode(bytes)| ==> !IsAsciiWhitespace(Encode(bytes)[i])
  {
    var u, e := EncodeUnpadded(bytes), Encode(bytes);
    forall i | 0 <= i < |e| ensures !IsAsciiWhitespace(e[i]) {
      if i < |u| {
        assert e[i] == u[i] && IsAlphabetChar(u[i]);
      } else {
        assert e[i] == '=';
      }
    }
  }

  lemma RemovePaddingOfEncode(bytes: seq<Byte>)
    ensures RemovePadding(Encode(bytes)) == EncodeUnpadded(bytes)
  {
    var u, e := EncodeUnpadded(bytes), Encode(bytes);
    EncodeUnpaddedLength(bytes);
    if |bytes| % 3 == 1 {
      assert e == u + "==";
      assert e[..|e| - 2] == u;
    } else if |bytes| % 3 == 2 {
      assert e == u + "=";
      assert e[|e| - 2] == u[|u| - 1] && IsAlphabetChar(u[|u| - 1]);
      assert e[..|e| - 1] == u;
    } else {
      assert e == u;
      assert |u| > 0 ==> IsAlphabetChar(u[|u| - 1]);
    }
  }

  /** `atob` inverts the canonical encoding, for every byte sequence. */
  lemma AtobEncodeRoundTrip(bytes: seq<Byte>)
    ensures Atob(Encode(bytes)) == Some(BinaryString(bytes))
  {
    EncodeHasNoWhitespace(bytes);
    RemoveWhitespaceKeepsClean(Encode(bytes));
    RemovePaddingOfEncode(bytes);
    DecodeGroupsOfEncodeUnpadded(bytes);
  }
}
