/** The base64url helpers `toBase64Url` / `fromBase64Url` of the API worker and of the push
    sender (the two copies are the same code): unpadded base64url (section 5 of RFC 4648) built
    on the platform's `btoa` and `atob`, which use the alphabet of section 4. */
module Base64Url {
  import opened Wrappers
  import opened Seqs

  /** An element of a `Uint8Array`. */
  type byte = x: int | 0 <= x < 256

  // ---------------------------------------------------------------------------------------
  // The alphabet of section 4 of RFC 4648

  predicate IsStdChar(c: char) {
    ('A' <= c <= 'Z') || ('a' <= c <= 'z') || ('0' <= c <= '9') || c == '+' || c == '/'
  }

  /** The character of a 6-bit value. */
  function StdChar(v: int): (c: char)
    requires 0 <= v < 64
    ensures IsStdChar(c)
  {
    if v < 26 then (65 + v) as char
    else if v < 52 then (97 + v - 26) as char
    else if v < 62 then (48 + v - 52) as char
    else if v == 62 then '+'
    else '/'
  }

  /** The 6-bit value of a character of the alphabet. */
  function StdValue(c: char): (v: int)
    requires IsStdChar(c)
    ensures 0 <= v < 64
  {
    if 'A' <= c <= 'Z' then c as int - 65
    else if 'a' <= c <= 'z' then c as int - 97 + 26
    else if '0' <= c <= '9' then c as int - 48 + 52
    else if c == '+' then 62
    else 63
  }

  /** The alphabet is a bijection between 6-bit values and its characters. */
  lemma StdCharValue(v: int, c: char)
    requires 0 <= v < 64 && IsStdChar(c)
    ensures StdValue(StdChar(v)) == v
    ensures StdChar(StdValue(c)) == c
  {
  }

  predicate AllStd(s: string) {
    forall i :: 0 <= i < |s| ==> IsStdChar(s[i])
  }

  // ---------------------------------------------------------------------------------------
  // Groups of three bytes and four characters

  /** One group of one to three bytes as two to four characters: the bytes are read as 24 bits
      (missing bytes count as zero bits) and cut into 6-bit values, as many as carry data. */
  function EncodeGroup(g: seq<byte>): (r: string)
    requires 1 <= |g| <= 3
    ensures |r| == |g| + 1 && AllStd(r)
  {
    var b1 := if |g| >= 2 then g[1] else 0;
    var b2 := if |g| == 3 then g[2] else 0;
    var all := [StdChar(g[0] / 4), StdChar((g[0] % 4) * 16 + b1 / 16),
                StdChar((b1 % 16) * 4 + b2 / 64), StdChar(b2 % 64)];
    all[..|g| + 1]
  }

  /** One group of two to four characters as one to three bytes; the bits beyond the last
      whole byte are dropped, as the forgiving decoder does. */
  function DecodeGroup(q: string): (r: seq<byte>)
    requires 2 <= |q| <= 4 && AllStd(q)
    ensures |r| == |q| - 1
  {
    var v0, v1 := StdValue(q[0]), StdValue(q[1]);
    var v2 := if |q| >= 3 then StdValue(q[2]) else 0;
    var v3 := if |q| == 4 then StdValue(q[3]) else 0;
    var all: seq<byte> := [v0 * 4 + v1 / 16, (v1 % 16) * 16 + v2 / 4, (v2 % 4) * 64 + v3];
    all[..|q| - 1]
  }

  /** The characters of `b` without padding, group by group. */
  function EncodeCore(b: seq<byte>): (r: string)
    ensures |r| % 4 != 1 && (|r| == 0 <==> |b| == 0)
    ensures AllStd(r)
  {
    if |b| == 0 then []
    else if |b| <= 3 then EncodeGroup(b)
    else EncodeGroup(b[..3]) + EncodeCore(b[3..])
  }

  /** Decodes a string of alphabet characters group by group. */
  function DecodeCore(d: string): (r: seq<byte>)
    requires |d| % 4 != 1 && AllStd(d)
    ensures |r| == 3 * |d| / 4
  {
    if |d| == 0 then []
    else if |d| <= 4 then DecodeGroup(d)
    else
      var head, rest := d[..4], d[4..];
      SplitGroup(d);
      DecodeGroup(head) + DecodeCore(rest)
  }

  /** Cutting off the first four characters keeps the alphabet and the length class, and three
      bytes go with them. */
  lemma SplitGroup(d: string)
    requires |d| > 4 && AllStd(d)
    ensures AllStd(d[..4]) && AllStd(d[4..]) && |d[4..]| % 4 == |d| % 4
    ensures 3 * |d| / 4 == 3 + 3 * |d[4..]| / 4
  {
    var n := |d| - 4;
    assert 3 * (n + 4) / 4 == 3 + 3 * n / 4;
  }

  /** The 24-bit arithmetic of one group: the three bytes come back from the four 6-bit values. */
  lemma GroupBits(b0: byte, b1: byte, b2: byte, v0: int, v1: int, v2: int, v3: int)
    requires v0 == b0 / 4 && v1 == (b0 % 4) * 16 + b1 / 16
    requires v2 == (b1 % 16) * 4 + b2 / 64 && v3 == b2 % 64
    ensures v0 * 4 + v1 / 16 == b0
    ensures (v1 % 16) * 16 + v2 / 4 == b1
    ensures (v2 % 4) * 64 + v3 == b2
  {
  }

  /** Every group survives a trip through its characters. */
  lemma DecodeEncodeGroup(g: seq<byte>)
    requires 1 <= |g| <= 3
    ensures DecodeGroup(EncodeGroup(g)) == g
  {
    var q := EncodeGroup(g);
    var b1 := if |g| >= 2 then g[1] else 0;
    var b2 := if |g| == 3 then g[2] else 0;
    var v0, v1 := g[0] / 4, (g[0] % 4) * 16 + b1 / 16;
    var v2, v3 := (b1 % 16) * 4 + b2 / 64, b2 % 64;
    StdCharValue(v0, 'A');
    StdCharValue(v1, 'A');
    StdCharValue(v2, 'A');
    StdCharValue(v3, 'A');
    GroupBits(g[0], b1, b2, v0, v1, v2, v3);
    assert StdValue(q[0]) == v0 && StdValue(q[1]) == v1;
    assert |q| >= 3 ==> StdValue(q[2]) == v2;
    assert |q| == 4 ==> StdValue(q[3]) == v3;
  }

  /** Every byte sequence survives a trip through the group encoding. */
  lemma {:induction false} DecodeEncodeCore(b: seq<byte>)
    ensures DecodeCore(EncodeCore(b)) == b
  {
    if 1 <= |b| <= 3 {
      DecodeEncodeGroup(b);
    } else if |b| > 3 {
      var e, g, rest := EncodeCore(b), EncodeGroup(b[..3]), EncodeCore(b[3..]);
      assert e[..4] == g && e[4..] == rest;
      DecodeEncodeGroup(b[..3]);
      DecodeEncodeCore(b[3..]);
      assert b == b[..3] + b[3..];
    }
  }

  // ---------------------------------------------------------------------------------------
  // The platform's btoa and atob

  /** `String.fromCharCode` of each byte: the "binary string" of `b`. */
  function Latin1(b: seq<byte>): (t: string)
    ensures |t| == |b|
    ensures forall i :: 0 <= i < |t| ==> t[i] as int == b[i]
  {
    seq(|b|, i requires 0 <= i < |b| => b[i] as char)
  }

  /** A string whose every character is at most U+00FF. */
  predicate IsBinary(t: string) {
    forall i :: 0 <= i < |t| ==> t[i] as int < 256
  }

  /** `charCodeAt` of each character of a binary string. */
  function CharCodes(t: string): (b: seq<byte>)
    requires IsBinary(t)
    ensures |b| == |t|
    ensures forall i :: 0 <= i < |b| ==> b[i] == t[i] as int
  {
    seq(|t|, i requires 0 <= i < |t| => t[i] as int)
  }

  /** `(4 - n % 4) % 4` copies of `=`: the padding that brings a length `n` to a multiple of 4. */
  function Padding(n: nat): (r: string)
    ensures |r| < 4 && (n + |r|) % 4 == 0
    ensures forall i :: 0 <= i < |r| ==> r[i] == '='
  {
    Repeat('=', (4 - n % 4) % 4)
  }

  /** Base64 (section 4 of RFC 4648) of a byte sequence: the groups, then `=` up to a multiple
      of four characters. */
  function StdEncode(b: seq<byte>): (r: string)
    ensures |r| % 4 == 0
  {
    EncodeCore(b) + Padding(|EncodeCore(b)|)
  }

  /** `btoa`: throws (here `None`) for a character above U+00FF, else encodes the bytes. */
  function Btoa(text: string): (r: Option<string>)
    ensures r.Some? <==> IsBinary(text)
  {
    if IsBinary(text) then Some(StdEncode(CharCodes(text))) else None
  }

  /** The ASCII whitespace that `atob` skips. */
  predicate IsAsciiWhitespace(c: char) {
    c == '\t' || c == '\n' || c == '\U{000C}' || c == '\r' || c == ' '
  }

  function RemoveAsciiWhitespace(s: string): (r: string)
    ensures |r| <= |s|
    ensures forall i :: 0 <= i < |r| ==> !IsAsciiWhitespace(r[i])
  {
    if s == [] then []
    else if IsAsciiWhitespace(s[|s| - 1]) then RemoveAsciiWhitespace(s[..|s| - 1])
    else RemoveAsciiWhitespace(s[..|s| - 1]) + [s[|s| - 1]]
  }

  /** Removes one or two trailing `=`. */
  function StripPadding(d: string): (r: string)
    ensures |r| <= |d| && r == d[..|r|] && |d| - |r| <= 2
  {
    if |d| >= 2 && d[|d| - 1] == '=' && d[|d| - 2] == '=' then d[..|d| - 2]
    else if |d| >= 1 && d[|d| - 1] == '=' then d[..|d| - 1]
    else d
  }

  /** What `atob` decodes: the input without ASCII whitespace and, when its length is a
      multiple of 4, without one or two trailing `=`. */
  function AtobData(s: string): (data: string)
    ensures |data| <= |s|
  {
    var d := RemoveAsciiWhitespace(s);
    if |d| % 4 == 0 then StripPadding(d) else d
  }

  /** `atob`, the forgiving-base64 decoder of the HTML standard: whitespace is skipped; a length
      that is a multiple of 4 may end in one or two `=`; what is left must be alphabet
      characters whose count is not 1 more than a multiple of 4, or `atob` throws. Each four
      characters give three bytes. */
  function Atob(s: string): (r: Option<string>)
    ensures r.Some? <==> |AtobData(s)| % 4 != 1 && AllStd(AtobData(s))
    ensures r.Some? ==> IsBinary(r.value) && |r.value| == 3 * |AtobData(s)| / 4
  {
    var data := AtobData(s);
    if |data| % 4 == 1 || !AllStd(data) then None
    else Some(Latin1(DecodeCore(data)))
  }

  /** `atob` undoes `btoa`. */
  lemma AtobBtoa(b: seq<byte>)
    ensures Btoa(Latin1(b)) == Some(StdEncode(b))
    ensures Atob(StdEncode(b)) == Some(Latin1(b))
  {
    assert CharCodes(Latin1(b)) == b;
    var core, e := EncodeCore(b), StdEncode(b);
    NoWhitespace(e);
    StripBtoaPadding(core);
    DecodeEncodeCore(b);
  }

  /** `atob` removes exactly the padding `btoa` adds. */
  lemma StripBtoaPadding(core: string)
    requires |core| % 4 != 1 && AllStd(core)
    ensures StripPadding(core + Padding(|core|)) == core
  {
    var e := core + Padding(|core|);
    if |core| % 4 == 0 {
      assert e == core;
      assert core == [] || IsStdChar(core[|core| - 1]);
    } else if |core| % 4 == 3 {
      assert e[..|e| - 1] == core;
      assert IsStdChar(core[|core| - 1]);
    } else {
      assert e[..|e| - 2] == core;
    }
  }

  /** A string of alphabet characters and `=` has no whitespace to skip. */
  lemma {:induction false} NoWhitespace(s: string)
    requires forall i :: 0 <= i < |s| ==> IsStdChar(s[i]) || s[i] == '='
    ensures RemoveAsciiWhitespace(s) == s
  {
    if s != [] {
      NoWhitespace(s[..|s| - 1]);
      assert s == s[..|s| - 1] + [s[|s| - 1]];
    }
  }

  // ---------------------------------------------------------------------------------------
  // The regular-expression replacements

  /** `s.replace(/x/g, y)` for a one-character pattern. */
  function ReplaceChar(s: string, x: char, y: char): (r: string)
    ensures |r| == |s|
    ensures forall i :: 0 <= i < |s| ==> r[i] == (if s[i] == x then y else s[i])
  {
    seq(|s|, i requires 0 <= i < |s| => if s[i] == x then y else s[i])
  }

  /** `s.replace(/=+$/g, '')`: drops the run of `=` at the end. */
  function StripTrailingPad(s: string): (r: string)
    ensures |r| <= |s| && r == s[..|r|]
    ensures r == [] || r[|r| - 1] != '='
    ensures forall i :: |r| <= i < |s| ==> s[i] == '='
  {
    if s != [] && s[|s| - 1] == '=' then StripTrailingPad(s[..|s| - 1]) else s
  }

  // ---------------------------------------------------------------------------------------
  // The helpers

  /** What `toBase64Url` returns: the group encoding with `+` and `/` replaced, since the `=`
      that `btoa` adds are exactly those the last replacement strips. It uses only
      `A-Z a-z 0-9 - _` and writes four characters per three bytes, rounded up, so its length
      is never one more than a multiple of 4. */
  function UrlEncode(b: seq<byte>): (s: string)
    ensures s == ReplaceChar(ReplaceChar(EncodeCore(b), '+', '-'), '/', '_')
    ensures forall i :: 0 <= i < |s| ==> IsUrlChar(s[i])
    ensures |s| == (4 * |b| + 2) / 3 && |s| % 4 != 1
  {
    UrlEncodeStripsPadding(b);
    EncodedLength(b);
    StripTrailingPad(ReplaceChar(ReplaceChar(StdEncode(b), '+', '-'), '/', '_'))
  }

  /** The `=` that `btoa` adds are exactly those the last replacement strips. */
  lemma UrlEncodeStripsPadding(b: seq<byte>)
    ensures StripTrailingPad(ReplaceChar(ReplaceChar(StdEncode(b), '+', '-'), '/', '_')) ==
      ReplaceChar(ReplaceChar(EncodeCore(b), '+', '-'), '/', '_')
  {
    var core := EncodeCore(b);
    var pad := Padding(|core|);
    var u := ReplaceChar(ReplaceChar(core, '+', '-'), '/', '_');
    var w := ReplaceChar(ReplaceChar(StdEncode(b), '+', '-'), '/', '_');
    assert w == u + pad;
    assert u == [] || u[|u| - 1] != '=';
    StripPadRun(u, |pad|);
    assert u + Repeat('=', |pad|) == w;
  }

  /** What `fromBase64Url` returns, with `None` where `atob` throws. A value of `A-Z a-z 0-9 -
      _` whose length is not one more than a multiple of 4 always decodes, to three bytes per
      four characters. */
  function UrlDecode(value: string): (r: Option<seq<byte>>)
    ensures (forall i :: 0 <= i < |value| ==> IsUrlChar(value[i])) && |value| % 4 != 1 ==>
      r.Some? && |r.value| == 3 * |value| / 4
  {
    var normalized := Normalize(value);
    var padded := normalized + Padding(|normalized|);
    UrlValueDecodes(value);
    var binary := Atob(padded);
    if binary.None? then None else Some(CharCodes(binary.value))
  }

  /** `atob` sees exactly the normalised characters of a value of the url alphabet. */
  lemma UrlValueDecodes(value: string)
    ensures var normalized := Normalize(value);
      (forall i :: 0 <= i < |value| ==> IsUrlChar(value[i])) && |value| % 4 != 1 ==>
        AllStd(normalized) && AtobData(normalized + Padding(|normalized|)) == normalized
  {
    var normalized := Normalize(value);
    if (forall i :: 0 <= i < |value| ==> IsUrlChar(value[i])) && |value| % 4 != 1 {
      UrlCharsNormalise(value);
      var padded := normalized + Padding(|normalized|);
      PaddedChars(normalized);
      NoWhitespace(padded);
      StripBtoaPadding(normalized);
      assert |padded| % 4 == 0;
    }
  }

  /** The decoder's replacements turn url characters into alphabet characters. */
  lemma UrlCharsNormalise(value: string)
    requires forall i :: 0 <= i < |value| ==> IsUrlChar(value[i])
    ensures AllStd(Normalize(value))
  {
  }

  /** Alphabet characters followed by their padding are alphabet characters and `=`. */
  lemma PaddedChars(core: string)
    requires AllStd(core)
    ensures var padded := core + Padding(|core|);
      forall i :: 0 <= i < |padded| ==> IsStdChar(padded[i]) || padded[i] == '='
  {
    var padded := core + Padding(|core|);
    forall i | 0 <= i < |padded| ensures IsStdChar(padded[i]) || padded[i] == '=' {
      if i < |core| {
        assert padded[i] == core[i];
      } else {
        assert padded[i] == Padding(|core|)[i - |core|];
      }
    }
  }

  /** `value.replace(/-/g, '+').replace(/_/g, '/')`. */
  function Normalize(value: string): (r: string)
    ensures |r| == |value|
  {
    ReplaceChar(ReplaceChar(value, '-', '+'), '_', '/')
  }

  predicate IsUrlChar(c: char) {
    ('A' <= c <= 'Z') || ('a' <= c <= 'z') || ('0' <= c <= '9') || c == '-' || c == '_'
  }

  /** `toBase64Url`: the bytes are appended to a binary string one by one, which `btoa` encodes
      and the three replacements turn into unpadded base64url. */
  method ToBase64Url(bytes: seq<byte>) returns (s: string)
    ensures s == UrlEncode(bytes)
    ensures UrlDecode(s) == Some(bytes)
    ensures forall i :: 0 <= i < |s| ==> IsUrlChar(s[i])
    ensures |s| == (4 * |bytes| + 2) / 3
  {
    var text := "";
    var i := 0;
    while i < |bytes|
      invariant 0 <= i <= |bytes|
      invariant text == Latin1(bytes[..i])
    {
      text := text + [bytes[i] as char];
      i := i + 1;
    }
    assert bytes[..i] == bytes;
    AtobBtoa(bytes);
    var encoded := Btoa(text);
    s := StripTrailingPad(ReplaceChar(ReplaceChar(encoded.value, '+', '-'), '/', '_'));
    UrlRoundTrip(bytes);
  }

  /** `fromBase64Url`: the `-`/`_` replacements and the padding undo those of the encoder,
      `atob` decodes, and a fresh `Uint8Array` is filled with the character codes. */
  method FromBase64Url(value: string) returns (r: Option<seq<byte>>)
    ensures r == UrlDecode(value)
  {
    var normalized := ReplaceChar(ReplaceChar(value, '-', '+'), '_', '/');
    var padded := normalized + Padding(|normalized|);
    var binary := Atob(padded);
    assert normalized == Normalize(value);
    if binary.None? {
      return None;
    }
    var text := binary.value;
    var bytes := new byte[|text|];
    var i := 0;
    while i < |text|
      invariant 0 <= i <= |text|
      invariant forall j :: 0 <= j < i ==> bytes[j] == text[j] as int
    {
      bytes[i] := text[i] as int;
      i := i + 1;
    }
    assert bytes[..] == CharCodes(text);
    return Some(bytes[..]);
  }

  // ---------------------------------------------------------------------------------------
  // Properties

  /** Stripping the `=` run off `u + "=="...` gives `u` back when `u` does not end in `=`. */
  lemma {:induction false} StripPadRun(u: string, n: nat)
    requires u == [] || u[|u| - 1] != '='
    ensures StripTrailingPad(u + Repeat('=', n)) == u
  {
    if n > 0 {
      assert (u + Repeat('=', n))[..|u| + n - 1] == u + Repeat('=', n - 1);
      StripPadRun(u, n - 1);
    } else {
      assert u + Repeat('=', 0) == u;
    }
  }

  /** Four characters per three bytes, rounded up. */
  lemma {:induction false} EncodedLength(b: seq<byte>)
    ensures |EncodeCore(b)| == (4 * |b| + 2) / 3
  {
    if |b| > 3 {
      EncodedLength(b[3..]);
    }
  }

  /** The decoder's replacements undo the encoder's on alphabet characters. */
  lemma UnreplaceUrl(core: string)
    requires forall i :: 0 <= i < |core| ==> IsStdChar(core[i]) || core[i] == '='
    ensures Normalize(ReplaceChar(ReplaceChar(core, '+', '-'), '/', '_')) == core
  {
  }

  /** The decoder's replacements leave alphabet characters and `=` alone. */
  lemma NormalizeStd(value: string)
    requires forall i :: 0 <= i < |value| ==> IsStdChar(value[i]) || value[i] == '='
    ensures Normalize(value) == value
  {
  }

  /** `fromBase64Url(toBase64Url(b)) == b` for every byte sequence. */
  lemma UrlRoundTrip(b: seq<byte>)
    ensures UrlDecode(UrlEncode(b)) == Some(b)
  {
    var core := EncodeCore(b);
    UnreplaceUrl(core);
    var normalized := Normalize(UrlEncode(b));
    assert normalized == core;
    assert normalized + Padding(|normalized|) == StdEncode(b);
    AtobBtoa(b);
    assert CharCodes(Latin1(b)) == b;
  }

  /** Canonical keys are fixed points of the private-key normalisation
      `toBase64Url(fromBase64Url(k))`: an encoder output decodes and re-encodes to itself. */
  lemma NormaliseCanonical(b: seq<byte>)
    ensures var k := UrlEncode(b);
      UrlDecode(k).Some? && UrlEncode(UrlDecode(k).value) == k
  {
    UrlRoundTrip(b);
  }

  /** A key written with `btoa`'s `=` padding decodes like the unpadded one, so normalisation
      turns it into the encoder's own, unpadded, form. */
  lemma PaddedKeyNormalises(b: seq<byte>)
    ensures UrlDecode(ReplaceChar(ReplaceChar(StdEncode(b), '+', '-'), '/', '_')) == Some(b)
  {
    var e := StdEncode(b);
    var padded := ReplaceChar(ReplaceChar(e, '+', '-'), '/', '_');
    PaddedChars(EncodeCore(b));
    UnreplaceUrl(e);
    assert Padding(|e|) == [];
    assert e + Padding(|e|) == e;
    AtobBtoa(b);
    assert CharCodes(Latin1(b)) == b;
  }

  /** A padded key loses its padding under normalisation: `AA==` decodes to one zero byte,
      which `ZeroByteEncoding` shows encodes as `AA`. */
  lemma NormaliseDropsPadding()
    ensures UrlDecode("AA==") == Some([0])
  {
    NormalizeStd("AA==");
    assert "AA==" + Padding(4) == "AA==";
    NoWhitespace("AA==");
    assert StripPadding("AA==") == "AA";
    assert StdValue('A') == 0;
    assert DecodeGroup("AA") == [0];
    assert DecodeCore("AA") == [0];
    assert Atob("AA==") == Some(Latin1([0]));
    assert CharCodes(Latin1([0])) == [0];
  }

  /** One zero byte encodes as `AA`. */
  lemma ZeroByteEncoding()
    ensures UrlEncode([0]) == "AA"
  {
    ZeroByteGroups();
    NoUrlReplacement(EncodeCore([0]));
  }

  lemma ZeroByteGroups()
    ensures EncodeCore([0]) == "AA"
  {
    assert StdChar(0) == 'A';
    assert EncodeGroup([0]) == [StdChar(0), StdChar(0), StdChar(0), StdChar(0)][..2];
  }

  lemma NoUrlReplacement(c: string)
    requires c == "AA"
    ensures ReplaceChar(ReplaceChar(c, '+', '-'), '/', '_') == "AA"
  {
  }

  /** Bits beyond the last byte are cleared under normalisation: `AB` decodes to one zero byte
      as well, so it too becomes `AA`. */
  lemma NormaliseClearsSpareBits()
    ensures UrlDecode("AB") == Some([0])
  {
    NormalizeStd("AB");
    assert "AB" + Padding(2) == "AB==";
    NoWhitespace("AB==");
    assert StripPadding("AB==") == "AB";
    assert StdValue('A') == 0 && StdValue('B') == 1;
    assert DecodeGroup("AB") == [0];
    assert DecodeCore("AB") == [0];
    assert Atob("AB==") == Some(Latin1([0]));
    assert CharCodes(Latin1([0])) == [0];
  }

  /** An input of `4k + 1` alphabet characters always throws: its padding adds three `=`, of
      which `atob` strips two, and the `=` left over is not an alphabet character. */
  lemma OneLeftOverThrows(value: string)
    requires |value| % 4 == 1 && AllStd(value)
    ensures UrlDecode(value).None?
  {
    NormalizeStd(value);
    var padded := value + Padding(|value|);
    assert padded == value + "===";
    NoWhitespace(padded);
    var data := StripPadding(padded);
    assert data == value + "=";
    assert !IsStdChar(data[|data| - 1]);
    assert Atob(padded).None?;
  }
}
