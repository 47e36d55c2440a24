/** Base 64 as the client's token decoding meets it: the alphabets of
    section 4 (standard) and section 5 (URL and filename safe) of RFC 4648,
    the unpadded encoding of section 2 of RFC 7515 that JWT segments use,
    and the `atob` decoder, which implements the forgiving-base64 decode of
    the WHATWG Infra standard (section 4.5). Encoding is modelled as the
    partner that the decoder is proved to invert. */
module Base64 {
  import opened Outcomes

  type Byte = b: int | 0 <= b < 256
  type Sextet = i: int | 0 <= i < 64

  /** The character for a 6-bit value, in the standard alphabet or, when
      `url`, in the URL and filename safe one. */
  function Letter(i: Sextet, url: bool): (c: char)
    ensures IsStandardLetter(c) <==> !url || i < 62
  {
    if i < 26 then ('A' as int + i) as char
    else if i < 52 then ('a' as int + (i - 26)) as char
    else if i < 62 then ('0' as int + (i - 52)) as char
    else if i == 62 then (if url then '-' else '+')
    else (if url then '_' else '/')
  }

  /** A character of the standard alphabet: `+`, `/` or ASCII alphanumeric. */
  predicate IsStandardLetter(c: char) {
    ('A' <= c <= 'Z') || ('a' <= c <= 'z') || ('0' <= c <= '9') || c == '+' || c == '/'
  }

  /** The 6-bit value of a standard-alphabet character. */
  function SextetOf(c: char): (i: Sextet)
    requires IsStandardLetter(c)
    ensures Letter(i, false) == c
  {
    if 'A' <= c <= 'Z' then c as int - 'A' as int
    else if 'a' <= c <= 'z' then c as int - 'a' as int + 26
    else if '0' <= c <= '9' then c as int - '0' as int + 52
    else if c == '+' then 62
    else 63
  }

  /** Reading a letter back gives its 6-bit value. */
  lemma SextetOfLetter(i: Sextet)
    ensures SextetOf(Letter(i, false)) == i
  {
  }

  /** `s.replace(/-/g, '+').replace(/_/g, '/')`: every `-` becomes `+` and
      every `_` becomes `/`; other characters and the length are kept. */
  function ToStandardAlphabet(s: string): (r: string)
    ensures |r| == |s|
    ensures forall k :: 0 <= k < |s| ==>
              r[k] == (if s[k] == '-' then '+' else if s[k] == '_' then '/' else s[k])
  {
    ReplaceAll(ReplaceAll(s, '-', '+'), '_', '/')
  }

  /** A global replace of one character by another. */
  function ReplaceAll(s: string, from: char, to: char): (r: string)
    ensures |r| == |s|
    ensures forall k :: 0 <= k < |s| ==> r[k] == (if s[k] == from then to else s[k])
  {
    if s == [] then [] else [if s[0] == from then to else s[0]] + ReplaceAll(s[1..], from, to)
  }

  /** The 6-bit values of a byte sequence: four per three bytes, and two or
      three for a final group of one or two bytes, zero-filled on the right. */
  function Sextets(bytes: seq<Byte>): (xs: seq<Sextet>)
    ensures |xs| == 4 * (|bytes| / 3) + (if |bytes| % 3 == 0 then 0 else |bytes| % 3 + 1)
  {
    if |bytes| == 0 then []
    else if |bytes| == 1 then Group(bytes[0], 0, 0)[..2]
    else if |bytes| == 2 then Group(bytes[0], bytes[1], 0)[..3]
    else Group(bytes[0], bytes[1], bytes[2]) + Sextets(bytes[3..])
  }

  /** The four 6-bit values of three bytes, most significant bits first. */
  function Group(a: Byte, b: Byte, c: Byte): (xs: seq<Sextet>)
    ensures |xs| == 4
  {
    [a / 4, (a % 4) * 16 + b / 16, (b % 16) * 4 + c / 64, c % 64]
  }

  /** The characters of a sequence of 6-bit values. */
  function Spell(xs: seq<Sextet>, url: bool): (s: string)
    ensures |s| == |xs|
    ensures forall k :: 0 <= k < |xs| ==> s[k] == Letter(xs[k], url)
  {
    seq(|xs|, k requires 0 <= k < |xs| => Letter(xs[k], url))
  }

  /** The unpadded encoding; with `url` it is the JWT segment encoding of
      section 2 of RFC 7515. */
  function EncodeUnpadded(bytes: seq<Byte>, url: bool): (s: string)
    ensures |s| == 4 * (|bytes| / 3) + (if |bytes| % 3 == 0 then 0 else |bytes| % 3 + 1)
  {
    Spell(Sextets(bytes), url)
  }

  /** The padded standard encoding of section 4 of RFC 4648. */
  function Encode(bytes: seq<Byte>): (s: string)
    ensures |s| % 4 == 0
  {
    var body := EncodeUnpadded(bytes, false);
    if |bytes| % 3 == 1 then body + "==" else if |bytes| % 3 == 2 then body + "=" else body
  }

  /** The ASCII whitespace of the Infra standard, which `atob` ignores. */
  predicate IsAsciiWhitespace(c: char) {
    c == '\t' || c == '\n' || c == '\U{C}' || c == '\r' || c == ' '
  }

  function RemoveAsciiWhitespace(s: string): (r: string)
    ensures forall k :: 0 <= k < |r| ==> !IsAsciiWhitespace(r[k])
    ensures (forall k :: 0 <= k < |s| ==> !IsAsciiWhitespace(s[k])) ==> r == s
  {
    if s == [] then []
    else if IsAsciiWhitespace(s[0]) then RemoveAsciiWhitespace(s[1..])
    else [s[0]] + RemoveAsciiWhitespace(s[1..])
  }

  /** Removes one or two trailing `=`. */
  function DropPadding(s: string): string {
    if |s| >= 2 && s[|s| - 2..] == "==" then s[..|s| - 2]
    else if |s| >= 1 && s[|s| - 1] == '=' then s[..|s| - 1]
    else s
  }

  predicate AllStandardLetters(s: string) {
    forall k :: 0 <= k < |s| ==> IsStandardLetter(s[k])
  }

  /** The 6-bit values of standard-alphabet characters. */
  function Unspell(s: string): (xs: seq<Sextet>)
    requires AllStandardLetters(s)
    ensures |xs| == |s|
    ensures forall k :: 0 <= k < |s| ==> Letter(xs[k], false) == s[k]
  {
    seq(|s|, k requires 0 <= k < |s| => SextetOf(s[k]))
  }

  /** Four, three or two 6-bit values regrouped into three, two or one
      bytes; the low bits left over at the end are discarded. */
  function Regroup(xs: seq<Sextet>): (bytes: seq<Byte>)
    requires |xs| % 4 != 1
    ensures |bytes| == 3 * (|xs| / 4) + (if |xs| % 4 == 0 then 0 else |xs| % 4 - 1)
  {
    if |xs| == 0 then []
    else
      var b0: Byte := xs[0] as int * 4 + xs[1] as int / 16;
      if |xs| == 2 then [b0]
      else
        var b1: Byte := (xs[1] as int % 16) * 16 + xs[2] as int / 4;
        if |xs| == 3 then [b0, b1]
        else [b0, b1, (xs[2] as int % 4) * 64 + xs[3] as int] + Regroup(xs[4..])
  }

  /** The bytes that standard-alphabet characters spell. */
  function DecodeLetters(s: string): (bytes: seq<Byte>)
    requires AllStandardLetters(s)
    requires |s| % 4 != 1
  {
    Regroup(Unspell(s))
  }

  /** `atob(s)` as a sequence of byte values; `None` where `atob` throws. */
  function AtoB(s: string): (r: Option<seq<Byte>>)
    ensures var d := RemoveAsciiWhitespace(s);
            (|d| % 4 != 0 && |d| % 4 != 1 && !AllStandardLetters(d)) ==> r == None
  {
    var d := RemoveAsciiWhitespace(s);
    var d' := if |d| % 4 == 0 then DropPadding(d) else d;
    if |d'| % 4 == 1 then None
    else if !AllStandardLetters(d') then None
    else Some(DecodeLetters(d'))
  }

  /** Regrouping the 6-bit values of a byte sequence gives back the bytes. */
  lemma {:induction false} RegroupSextets(bytes: seq<Byte>)
    ensures Regroup(Sextets(bytes)) == bytes
    decreases |bytes|
  {
    if |bytes| == 1 {
      RegroupCut(bytes[0], 0, 0);
    } else if |bytes| == 2 {
      RegroupCut(bytes[0], bytes[1], 0);
    } else if |bytes| >= 3 {
      var rest := bytes[3..];
      RegroupSextets(rest);
      RegroupGroup(bytes[0], bytes[1], bytes[2], Sextets(rest));
      FirstThree(bytes);
    }
  }

  /** A sequence of at least three bytes is its first three bytes and the rest. */
  lemma FirstThree(bytes: seq<Byte>)
    requires |bytes| >= 3
    ensures bytes == [bytes[0], bytes[1], bytes[2]] + bytes[3..]
  {
  }

  /** Regrouping a group of 6-bit values gives back its bytes: each byte is
      the high bits of one value followed by the low bits of the next. A
      group cut to two or three values gives back one or two bytes. */
  lemma RegroupGroup(a: Byte, b: Byte, c: Byte, rest: seq<Sextet>)
    requires |rest| % 4 != 1
    ensures Regroup(Group(a, b, c) + rest) == [a, b, c] + Regroup(rest)
  {
    GroupBits(a, b, c);
    RegroupFour(Group(a, b, c), rest, a, b, c);
  }

  lemma RegroupFour(g: seq<Sextet>, rest: seq<Sextet>, a: Byte, b: Byte, c: Byte)
    requires |g| == 4 && |rest| % 4 != 1
    requires g[0] as int * 4 + g[1] as int / 16 == a
    requires (g[1] as int % 16) * 16 + g[2] as int / 4 == b
    requires (g[2] as int % 4) * 64 + g[3] as int == c
    ensures Regroup(g + rest) == [a, b, c] + Regroup(rest)
  {
    var xs := g + rest;
    assert |xs| % 4 != 1 by { ModFour(|rest|); }
    var e0: int := xs[0] as int * 4 + xs[1] as int / 16;
    var e1: int := (xs[1] as int % 16) * 16 + xs[2] as int / 4;
    var e2: int := (xs[2] as int % 4) * 64 + xs[3] as int;
    assert e0 == a && e1 == b && e2 == c by {
      assert xs[0] == g[0] && xs[1] == g[1] && xs[2] == g[2] && xs[3] == g[3];
    }
    assert xs[4..] == rest;
    RegroupStep(xs);
  }

  /** Four more values leave the length's remainder modulo 4 unchanged. */
  lemma ModFour(n: nat)
    ensures (n + 4) % 4 == n % 4
  {
  }

  /** A group cut to three or two values gives back two bytes or one. */
  lemma RegroupCut(a: Byte, b: Byte, c: Byte)
    ensures Regroup(Group(a, b, c)[..3]) == [a, b]
    ensures Regroup(Group(a, b, c)[..2]) == [a]
  {
    var g := Group(a, b, c);
    RegroupHead(g[..3]);
    RegroupHead(g[..2]);
    GroupBits(a, b, c);
  }

  /** The bits of three bytes survive the split into 6-bit values. */
  lemma GroupBits(a: Byte, b: Byte, c: Byte)
    ensures var g := Group(a, b, c);
            && g[0] as int * 4 + g[1] as int / 16 == a
            && (g[1] as int % 16) * 16 + g[2] as int / 4 == b
            && (g[2] as int % 4) * 64 + g[3] as int == c
  {
    var x1 := (a % 4) * 16 + b / 16;
    var x2 := (b % 16) * 4 + c / 64;
    assert x1 / 16 == a % 4 && x1 % 16 == b / 16;
    assert x2 / 4 == b % 16 && x2 % 4 == c / 64;
  }

  /** `Regroup` on two or three values. */
  lemma RegroupHead(xs: seq<Sextet>)
    requires |xs| >= 2 && |xs| % 4 != 1
    ensures |xs| == 2 ==> Regroup(xs) == [xs[0] as int * 4 + xs[1] as int / 16]
    ensures |xs| == 3 ==> Regroup(xs) == [xs[0] as int * 4 + xs[1] as int / 16, (xs[1] as int % 16) * 16 + xs[2] as int / 4]
  {
  }

  /** One step of `Regroup` on four or more values. */
  lemma RegroupStep(xs: seq<Sextet>)
    requires |xs| >= 4 && |xs| % 4 != 1
    ensures Regroup(xs) == [xs[0] as int * 4 + xs[1] as int / 16, (xs[1] as int % 16) * 16 + xs[2] as int / 4, (xs[2] as int % 4) * 64 + xs[3] as int] + Regroup(xs[4..])
  {
  }

  lemma {:induction false} UnspellSpell(xs: seq<Sextet>)
    ensures AllStandardLetters(Spell(xs, false))
    ensures Unspell(Spell(xs, false)) == xs
  {
    var s := Spell(xs, false);
    forall k | 0 <= k < |xs| ensures IsStandardLetter(s[k]) && SextetOf(s[k]) == xs[k] {
      SextetOfLetter(xs[k]);
    }
  }

  /** Decoding the letters of an unpadded encoding gives back the bytes. */
  lemma DecodeEncode(bytes: seq<Byte>)
    ensures AllStandardLetters(EncodeUnpadded(bytes, false))
    ensures DecodeLetters(EncodeUnpadded(bytes, false)) == bytes
  {
    UnspellSpell(Sextets(bytes));
    RegroupSextets(bytes);
  }

  /** `atob` inverts the unpadded standard encoding. */
  lemma AtoBUnpadded(bytes: seq<Byte>)
    ensures AtoB(EncodeUnpadded(bytes, false)) == Some(bytes)
  {
    var s := EncodeUnpadded(bytes, false);
    DecodeEncode(bytes);
    LettersKeptByAtoB(s);
  }

  /** Standard letters are neither whitespace nor padding, so `atob` keeps them all. */
  lemma LettersKeptByAtoB(s: string)
    requires AllStandardLetters(s)
    ensures RemoveAsciiWhitespace(s) == s
    ensures DropPadding(s) == s
  {
    forall k | 0 <= k < |s| ensures !IsAsciiWhitespace(s[k]) {
      assert IsStandardLetter(s[k]);
    }
    if |s| > 0 {
      assert IsStandardLetter(s[|s| - 1]);
    }
  }

  /** `atob` inverts the padded encoding of section 4 of RFC 4648. */
  lemma AtoBPadded(bytes: seq<Byte>)
    ensures AtoB(Encode(bytes)) == Some(bytes)
  {
    var body := EncodeUnpadded(bytes, false);
    var s := Encode(bytes);
    DecodeEncode(bytes);
    NoWhitespaceInEncoding(bytes);
    PaddingDropped(bytes);
  }

  /** A padded encoding holds no whitespace for `atob` to remove. */
  lemma NoWhitespaceInEncoding(bytes: seq<Byte>)
    ensures RemoveAsciiWhitespace(Encode(bytes)) == Encode(bytes)
  {
    var body := EncodeUnpadded(bytes, false);
    DecodeEncode(bytes);
    LettersKeptByAtoB(body);
    if |bytes| % 3 == 1 {
      PaddedLetters(body, "==");
    } else if |bytes| % 3 == 2 {
      PaddedLetters(body, "=");
    }
  }

  /** Letters followed by padding hold no whitespace. */
  lemma PaddedLetters(body: string, pad: string)
    requires AllStandardLetters(body)
    requires pad == "=" || pad == "=="
    ensures RemoveAsciiWhitespace(body + pad) == body + pad
  {
    var s := body + pad;
    forall k | 0 <= k < |s| ensures !IsAsciiWhitespace(s[k]) {
      if k < |body| {
        assert s[k] == body[k] && IsStandardLetter(body[k]);
      } else {
        assert s[k] == pad[k - |body|] == '=';
      }
    }
  }

  /** Dropping the padding of an encoding leaves its letters. */
  lemma PaddingDropped(bytes: seq<Byte>)
    ensures DropPadding(Encode(bytes)) == EncodeUnpadded(bytes, false)
  {
    var body := EncodeUnpadded(bytes, false);
    DecodeEncode(bytes);
    if |bytes| % 3 == 1 {
      DropTwo(body);
    } else if |bytes| % 3 == 2 {
      DropOne(body);
    } else {
      LettersKeptByAtoB(body);
    }
  }

  /** Two trailing `=` are dropped. */
  lemma DropTwo(body: string)
    ensures DropPadding(body + "==") == body
  {
    var s := body + "==";
    assert s[|s| - 2..] == "==";
    assert s[..|s| - 2] == body;
  }

  /** One trailing `=` after a letter is dropped. */
  lemma DropOne(body: string)
    requires body != [] && AllStandardLetters(body)
    ensures DropPadding(body + "=") == body
  {
    var s := body + "=";
    assert IsStandardLetter(body[|body| - 1]);
    assert s[|s| - 2..] != "==" by {
      assert s[|s| - 2] == body[|body| - 1];
    }
    assert s[..|s| - 1] == body;
  }

  /** Mapping a URL-safe encoding to the standard alphabet gives the standard encoding. */
  lemma {:induction false} StandardOfUrl(bytes: seq<Byte>)
    ensures ToStandardAlphabet(EncodeUnpadded(bytes, true)) == EncodeUnpadded(bytes, false)
  {
    var u := EncodeUnpadded(bytes, true);
    var s := EncodeUnpadded(bytes, false);
    assert |ToStandardAlphabet(u)| == |s|;
    forall k | 0 <= k < |u| ensures ToStandardAlphabet(u)[k] == s[k] {
      var x := Sextets(bytes)[k];
      assert u[k] == Letter(x, true);
      assert s[k] == Letter(x, false);
    }
  }
}
