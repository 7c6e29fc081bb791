/**
 * Standard base64 (section 4 of RFC 4648) as Python's `base64` module does it:
 * `b64encode` on the client side and `b64decode` with its default,
 * non-validating behaviour on the server side.
 */
module Base64 {
  import opened Common

  /** Why `b64decode` raises. */
  datatype DecodeError =
    | NonAscii          // ValueError: a `str` argument must be pure ASCII
    | LoneDataChar      // binascii.Error: data characters are 1 more than a multiple of 4
    | IncorrectPadding  // binascii.Error: "Incorrect padding"

  predicate IsAscii(c: char) {
    c as int < 128
  }

  /** The 64 characters of the standard alphabet ('=' is not one of them). */
  predicate IsDataChar(c: char) {
    ('A' <= c <= 'Z') || ('a' <= c <= 'z') || ('0' <= c <= '9') || c == '+' || c == '/'
  }

  /** The alphabet character for a 6-bit value. */
  function CharOf(v: nat): (c: char)
    requires v < 64
    ensures IsDataChar(c)
  {
    if v < 26 then ('A' as int + v) as char
    else if v < 52 then ('a' as int + (v - 26)) as char
    else if v < 62 then ('0' as int + (v - 52)) as char
    else if v == 62 then '+'
    else '/'
  }

  /** The 6-bit value of an alphabet character. */
  function SextetOf(c: char): (v: nat)
    requires IsDataChar(c)
    ensures v < 64 && CharOf(v) == c
  {
    if 'A' <= c <= 'Z' then c as int - 'A' as int
    else if 'a' <= c <= 'z' then c as int - 'a' as int + 26
    else if '0' <= c <= '9' then c as int - '0' as int + 52
    else if c == '+' then 62
    else 63
  }

  lemma SextetOfCharOf(v: nat)
    requires v < 64
    ensures SextetOf(CharOf(v)) == v
  {
  }

  /** Three bytes as four alphabet characters, six bits each. */
  function EncodeQuad(b0: byte, b1: byte, b2: byte): (q: string)
    ensures |q| == 4 && forall i :: 0 <= i < 4 ==> IsDataChar(q[i])
  {
    [CharOf(b0 / 4), CharOf((b0 % 4) * 16 + b1 / 16), CharOf((b1 % 16) * 4 + b2 / 64), CharOf(b2 % 64)]
  }

  /** The last one or two bytes, zero-filled to whole characters and padded with '='. */
  function EncodeTail(b: seq<byte>): (t: string)
    requires |b| < 3
    ensures |t| == (if b == [] then 0 else 4)
    ensures forall i :: 0 <= i < |t| ==> IsDataChar(t[i]) || t[i] == '='
  {
    if |b| == 0 then ""
    else if |b| == 1 then [CharOf(b[0] / 4), CharOf((b[0] % 4) * 16), '=', '=']
    else [CharOf(b[0] / 4), CharOf((b[0] % 4) * 16 + b[1] / 16), CharOf((b[1] % 16) * 4), '=']
  }

  /** `base64.b64encode(b).decode("utf-8")`: every 3 bytes become 4 characters, a
      short final group is completed with '='. */
  function Encode(b: seq<byte>): (s: string)
    ensures |s| == 4 * ((|b| + 2) / 3)
    ensures forall i :: 0 <= i < |s| ==> IsDataChar(s[i]) || s[i] == '='
    decreases |b|
  {
    if |b| < 3 then EncodeTail(b) else EncodeQuad(b[0], b[1], b[2]) + Encode(b[3..])
  }

  /** Puts one decoded byte in front of the rest of the output. */
  function Cons(x: byte, r: Result<seq<byte>, DecodeError>): Result<seq<byte>, DecodeError> {
    if r.Ok? then Ok([x] + r.value) else r
  }

  /** How many bits of the current quad are still held back after `quad` data characters. */
  function LeftLimit(quad: nat): nat {
    if quad == 1 then 64 else if quad == 2 then 16 else if quad == 3 then 4 else 1
  }

  /**
   * The non-validating decoder, one character at a time: `quad` counts the data
   * characters of the current quad, `left` holds their unconsumed bits and `pads`
   * the '=' seen since the last data character. Characters outside the alphabet
   * are skipped; a '=' that completes a quad ends the decoding; input that ends
   * inside a quad is an error.
   */
  function A2b(s: string, quad: nat, left: nat, pads: nat): (r: Result<seq<byte>, DecodeError>)
    requires quad < 4 && left < LeftLimit(quad)
    ensures r.Err? ==> r.error != NonAscii
    decreases |s|
  {
    if s == [] then
      if quad == 0 then Ok([])
      else if quad == 1 then Err(LoneDataChar)
      else Err(IncorrectPadding)
    else if s[0] == '=' then
      if quad >= 2 && quad + pads + 1 >= 4 then Ok([])
      else A2b(s[1..], quad, left, if quad >= 2 then pads + 1 else pads)
    else if !IsDataChar(s[0]) then
      A2b(s[1..], quad, left, pads)
    else
      var v := SextetOf(s[0]);
      if quad == 0 then A2b(s[1..], 1, v, 0)
      else if quad == 1 then Cons(left * 4 + v / 16, A2b(s[1..], 2, v % 16, 0))
      else if quad == 2 then Cons(left * 16 + v / 4, A2b(s[1..], 3, v % 4, 0))
      else Cons(left * 64 + v, A2b(s[1..], 0, 0, 0))
  }

  /** `base64.b64decode(s)` for a `str` argument. */
  function Decode(s: string): (r: Result<seq<byte>, DecodeError>)
    ensures (r == Err(NonAscii)) <==> exists i :: 0 <= i < |s| && !IsAscii(s[i])
  {
    if exists i :: 0 <= i < |s| && !IsAscii(s[i]) then Err(NonAscii)
    else A2b(s, 0, 0, 0)
  }

  /** The three bytes packed into four 6-bit values come back out of the
      decoder's shift-and-mask arithmetic unchanged. */
  lemma QuadArithmetic(b0: byte, b1: byte, b2: byte)
    ensures (b0 / 4) * 4 + ((b0 % 4) * 16 + b1 / 16) / 16 == b0
    ensures (((b0 % 4) * 16 + b1 / 16) % 16) * 16 + ((b1 % 16) * 4 + b2 / 64) / 4 == b1
    ensures (((b1 % 16) * 4 + b2 / 64) % 4) * 64 + b2 % 64 == b2
  {
  }

  /** One full quad decodes to the three bytes it encodes, and decoding resumes
      at the start of a fresh quad. */
  lemma A2bFullQuad(b0: byte, b1: byte, b2: byte, rest: string)
    ensures A2b(EncodeQuad(b0, b1, b2) + rest, 0, 0, 0) == Cons(b0, Cons(b1, Cons(b2, A2b(rest, 0, 0, 0))))
  {
    var v0, v1, v2, v3 := b0 / 4, (b0 % 4) * 16 + b1 / 16, (b1 % 16) * 4 + b2 / 64, b2 % 64;
    SextetOfCharOf(v0);
    SextetOfCharOf(v1);
    SextetOfCharOf(v2);
    SextetOfCharOf(v3);
    QuadArithmetic(b0, b1, b2);
    var s0 := EncodeQuad(b0, b1, b2) + rest;
    var s1, s2, s3 := s0[1..], s0[2..], s0[3..];
    assert s0[0] == CharOf(v0) && s1[0] == CharOf(v1) && s2[0] == CharOf(v2) && s3[0] == CharOf(v3);
    assert s0[1..] == s1 && s1[1..] == s2 && s2[1..] == s3 && s3[1..] == rest;
    calc {
      A2b(s0, 0, 0, 0);
      A2b(s1, 1, v0, 0);
      Cons(b0, A2b(s2, 2, v1 % 16, 0));
      Cons(b0, Cons(b1, A2b(s3, 3, v2 % 4, 0)));
      Cons(b0, Cons(b1, Cons(b2, A2b(rest, 0, 0, 0))));
    }
  }

  /** "xx==": a single final byte; the completing '=' ends the decoding, so
      whatever follows is never looked at. */
  lemma A2bOneByte(x: byte, rest: string)
    ensures A2b(EncodeTail([x]) + rest, 0, 0, 0) == Ok([x])
  {
    var v0, v1 := x / 4, (x % 4) * 16;
    SextetOfCharOf(v0);
    SextetOfCharOf(v1);
    var s0 := EncodeTail([x]) + rest;
    assert s0 == [CharOf(v0), CharOf(v1), '=', '='] + rest;
    assert s0[1..] == [CharOf(v1), '=', '='] + rest;
    assert s0[1..][1..] == ['=', '='] + rest;
    assert s0[1..][1..][1..] == ['='] + rest;
    calc {
      A2b(s0, 0, 0, 0);
      A2b([CharOf(v1), '=', '='] + rest, 1, v0, 0);
      Cons(x, A2b(['=', '='] + rest, 2, v1 % 16, 0));
      Cons(x, A2b(['='] + rest, 2, v1 % 16, 1));
      Cons(x, Ok([]));
      { assert [x] + [] == [x]; }
      Ok([x]);
    }
  }

  /** "xxx=": two final bytes; the completing '=' ends the decoding. */
  lemma A2bTwoBytes(x: byte, y: byte, rest: string)
    ensures A2b(EncodeTail([x, y]) + rest, 0, 0, 0) == Ok([x, y])
  {
    var v0, v1, v2 := x / 4, (x % 4) * 16 + y / 16, (y % 16) * 4;
    SextetOfCharOf(v0);
    SextetOfCharOf(v1);
    SextetOfCharOf(v2);
    QuadArithmetic(x, y, 0);
    var s0 := EncodeTail([x, y]) + rest;
    assert s0 == [CharOf(v0), CharOf(v1), CharOf(v2), '='] + rest;
    assert s0[1..] == [CharOf(v1), CharOf(v2), '='] + rest;
    assert s0[1..][1..] == [CharOf(v2), '='] + rest;
    assert s0[1..][1..][1..] == ['='] + rest;
    calc {
      A2b(s0, 0, 0, 0);
      A2b([CharOf(v1), CharOf(v2), '='] + rest, 1, v0, 0);
      Cons(x, A2b([CharOf(v2), '='] + rest, 2, v1 % 16, 0));
      Cons(x, Cons(y, A2b(['='] + rest, 3, v2 % 4, 0)));
      Cons(x, Cons(y, Ok([])));
      { assert [x] + ([y] + []) == [x, y]; }
      Ok([x, y]);
    }
  }

  /** The padded final group decodes to the last one or two bytes, whatever follows it. */
  lemma A2bTail(b: seq<byte>, rest: string)
    requires 1 <= |b| <= 2
    ensures A2b(EncodeTail(b) + rest, 0, 0, 0) == Ok(b)
  {
    if |b| == 1 {
      assert b == [b[0]];
      A2bOneByte(b[0], rest);
    } else {
      assert b == [b[0], b[1]];
      A2bTwoBytes(b[0], b[1], rest);
    }
  }

  /** A full quad followed by text that decodes to the rest of `b` decodes to `b`. */
  lemma A2bQuadThenRest(b: seq<byte>, rest: string)
    requires |b| >= 3 && A2b(rest, 0, 0, 0) == Ok(b[3..])
    ensures A2b(EncodeQuad(b[0], b[1], b[2]) + rest, 0, 0, 0) == Ok(b)
  {
    A2bFullQuad(b[0], b[1], b[2], rest);
    assert [b[0]] + ([b[1]] + ([b[2]] + b[3..])) == b;
  }

  /** The character-level decoder inverts the encoder. */
  lemma {:induction false} A2bEncode(b: seq<byte>)
    ensures A2b(Encode(b), 0, 0, 0) == Ok(b)
    decreases |b|
  {
    if |b| == 0 {
    } else if |b| < 3 {
      A2bTail(b, []);
      assert EncodeTail(b) + [] == EncodeTail(b);
    } else {
      A2bEncode(b[3..]);
      A2bQuadThenRest(b, Encode(b[3..]));
    }
  }

  /** The server's decoder recovers exactly the bytes the client encoded. */
  lemma DecodeEncode(b: seq<byte>)
    ensures Decode(Encode(b)) == Ok(b)
  {
    var s := Encode(b);
    assert forall i :: 0 <= i < |s| ==> IsAscii(s[i]);
    A2bEncode(b);
  }

  /** The characters the decoder looks at: the alphabet and '='. */
  function Relevant(s: string): (t: string)
    ensures forall i :: 0 <= i < |t| ==> IsDataChar(t[i]) || t[i] == '='
  {
    if s == [] then []
    else if IsDataChar(s[0]) || s[0] == '=' then [s[0]] + Relevant(s[1..])
    else Relevant(s[1..])
  }

  /** Characters outside the alphabet, other than '=', are skipped wherever they
      appear: decoding `s` is decoding `s` with them removed. */
  lemma {:induction false} A2bSkipsNonAlphabet(s: string, quad: nat, left: nat, pads: nat)
    requires quad < 4 && left < LeftLimit(quad)
    ensures A2b(s, quad, left, pads) == A2b(Relevant(s), quad, left, pads)
    decreases |s|
  {
    if s != [] {
      var t := Relevant(s);
      if IsDataChar(s[0]) || s[0] == '=' {
        assert t[0] == s[0] && t[1..] == Relevant(s[1..]);
        if s[0] == '=' {
          A2bSkipsNonAlphabet(s[1..], quad, left, if quad >= 2 then pads + 1 else pads);
        } else {
          var v := SextetOf(s[0]);
          if quad == 0 {
            A2bSkipsNonAlphabet(s[1..], 1, v, 0);
          } else if quad == 1 {
            A2bSkipsNonAlphabet(s[1..], 2, v % 16, 0);
          } else if quad == 2 {
            A2bSkipsNonAlphabet(s[1..], 3, v % 4, 0);
          } else {
            A2bSkipsNonAlphabet(s[1..], 0, 0, 0);
          }
        }
      } else {
        A2bSkipsNonAlphabet(s[1..], quad, left, pads);
      }
    }
  }

  /** The number of alphabet characters in `s`. */
  function DataCount(s: string): (n: nat)
    ensures n <= |s|
  {
    if s == [] then 0 else (if IsDataChar(s[0]) then 1 else 0) + DataCount(s[1..])
  }

  /** How many bytes the first `quad` data characters of a quad have already produced. */
  function Emitted(quad: nat): nat {
    if quad == 0 then 0 else quad - 1
  }

  /**
   * Without '=', decoding fails exactly when the data characters do not fill whole
   * quads: one character over is the "1 more than a multiple of 4" error, two or
   * three over is "Incorrect padding". When it succeeds, every 4 data characters
   * give 3 bytes.
   */
  lemma {:induction false} A2bWithoutPadding(s: string, quad: nat, left: nat, pads: nat)
    requires quad < 4 && left < LeftLimit(quad)
    requires forall i :: 0 <= i < |s| ==> s[i] != '='
    ensures A2b(s, quad, left, pads).Err? <==> (quad + DataCount(s)) % 4 != 0
    ensures A2b(s, quad, left, pads) == Err(LoneDataChar) <==> (quad + DataCount(s)) % 4 == 1
    ensures A2b(s, quad, left, pads).Ok? ==>
      4 * |A2b(s, quad, left, pads).value| + 4 * Emitted(quad) == 3 * (quad + DataCount(s))
    decreases |s|
  {
    if s != [] {
      assert forall i :: 0 <= i < |s[1..]| ==> s[1..][i] == s[i + 1];
      if !IsDataChar(s[0]) {
        A2bWithoutPadding(s[1..], quad, left, pads);
      } else {
        var v := SextetOf(s[0]);
        if quad == 0 {
          A2bWithoutPadding(s[1..], 1, v, 0);
        } else if quad == 1 {
          A2bWithoutPadding(s[1..], 2, v % 16, 0);
        } else if quad == 2 {
          A2bWithoutPadding(s[1..], 3, v % 4, 0);
        } else {
          A2bWithoutPadding(s[1..], 0, 0, 0);
        }
      }
    }
  }

  /** A '=' that completes a padded final group ends the decoding: whatever ASCII
      text follows the encoding of `b` is ignored. */
  lemma {:induction false} PaddingEndsDecoding(b: seq<byte>, rest: string)
    requires |b| % 3 != 0
    requires forall i :: 0 <= i < |rest| ==> IsAscii(rest[i])
    ensures Decode(Encode(b) + rest) == Ok(b)
    decreases |b|
  {
    var s := Encode(b) + rest;
    assert forall i :: 0 <= i < |s| ==> IsAscii(s[i]) by {
      forall i | 0 <= i < |s| ensures IsAscii(s[i]) {
        if i >= |Encode(b)| {
          assert s[i] == rest[i - |Encode(b)|];
        }
      }
    }
    A2bEncodeThen(b, rest);
  }

  /** The character-level half of `PaddingEndsDecoding`. */
  lemma {:induction false} A2bEncodeThen(b: seq<byte>, rest: string)
    requires |b| % 3 != 0
    ensures A2b(Encode(b) + rest, 0, 0, 0) == Ok(b)
    decreases |b|
  {
    if |b| < 3 {
      A2bTail(b, rest);
    } else {
      A2bEncodeThen(b[3..], rest);
      assert Encode(b) + rest == EncodeQuad(b[0], b[1], b[2]) + (Encode(b[3..]) + rest);
      A2bQuadThenRest(b, Encode(b[3..]) + rest);
    }
  }

  /** A final group "xx==" of any two data characters, canonical or not, gives one
      byte: the bits left over in the second character are dropped, and the
      completing '=' ends the decoding. */
  lemma PaddedPair(c0: char, c1: char, rest: string)
    requires IsDataChar(c0) && IsDataChar(c1)
    ensures A2b([c0, c1, '=', '='] + rest, 0, 0, 0) == Ok([SextetOf(c0) * 4 + SextetOf(c1) / 16])
  {
    var v0, v1 := SextetOf(c0), SextetOf(c1);
    var x := v0 * 4 + v1 / 16;
    var s := [c0, c1, '=', '='] + rest;
    assert s[1..] == [c1, '=', '='] + rest;
    assert s[1..][1..] == ['=', '='] + rest;
    assert s[1..][1..][1..] == ['='] + rest;
    calc {
      A2b(s, 0, 0, 0);
      A2b([c1, '=', '='] + rest, 1, v0, 0);
      Cons(x, A2b(['=', '='] + rest, 2, v1 % 16, 0));
      Cons(x, A2b(['='] + rest, 2, v1 % 16, 1));
      { assert [x] + [] == [x]; }
      Ok([x]);
    }
  }

  /** The third data character of a group and its completing '=' give one byte from
      the 4 bits held back and the character's top 4 bits. */
  lemma ThirdThenPad(c2: char, left: nat, rest: string)
    requires IsDataChar(c2) && left < 16
    ensures A2b([c2, '='] + rest, 2, left, 0) == Ok([left * 16 + SextetOf(c2) / 4])
  {
    var y := left * 16 + SextetOf(c2) / 4;
    var t := [c2, '='] + rest;
    assert t[0] == c2 && t[1..] == ['='] + rest;
    assert A2b(t[1..], 3, SextetOf(c2) % 4, 0) == Ok([]);
    assert [y] + [] == [y];
  }

  /** A final group "xxx=" of any three data characters, canonical or not, gives two
      bytes: the bits left over in the third character are dropped, and the
      completing '=' ends the decoding. */
  lemma PaddedTriple(c0: char, c1: char, c2: char, rest: string)
    requires IsDataChar(c0) && IsDataChar(c1) && IsDataChar(c2)
    ensures A2b([c0, c1, c2, '='] + rest, 0, 0, 0)
         == Ok([SextetOf(c0) * 4 + SextetOf(c1) / 16, (SextetOf(c1) % 16) * 16 + SextetOf(c2) / 4])
  {
    var v0, v1 := SextetOf(c0), SextetOf(c1);
    var x, y := v0 * 4 + v1 / 16, (v1 % 16) * 16 + SextetOf(c2) / 4;
    var t := [c0, c1, c2, '='] + rest;
    assert t[1..] == [c1, c2, '='] + rest;
    assert t[1..][1..] == [c2, '='] + rest;
    ThirdThenPad(c2, v1 % 16, rest);
    calc {
      A2b(t, 0, 0, 0);
      A2b([c1, c2, '='] + rest, 1, v0, 0);
      Cons(x, A2b([c2, '='] + rest, 2, v1 % 16, 0));
      Cons(x, Ok([y]));
      { assert [x] + [y] == [x, y]; }
      Ok([x, y]);
    }
  }

  /** A '=' that does not complete a quad is counted and decoding goes on: a quad
      whose two data characters are followed by one '=' is continued by the next
      data character, and the text must still end on a completed quad. */
  lemma StrayPadding()
    ensures Decode("QQ=Q==") == Ok([65, 4])
    ensures Decode("QQ=Q") == Err(IncorrectPadding)
    ensures Decode("QR==") == Ok([65])
  {
    assert "QQ=Q=="[1..] == "Q=Q==";
    assert "Q=Q=="[1..] == "=Q==";
    assert "=Q=="[1..] == "Q==";
    assert "Q=="[1..] == "==";
    assert "=="[1..] == "=";
    calc {
      A2b("QQ=Q==", 0, 0, 0);
      A2b("Q=Q==", 1, 16, 0);
      Cons(65, A2b("=Q==", 2, 0, 0));
      Cons(65, A2b("Q==", 2, 0, 1));
      Cons(65, Cons(4, A2b("==", 3, 0, 0)));
      { assert [65] + ([4] + []) == [65, 4]; }
      Ok([65, 4]);
    }
    assert "QQ=Q"[1..] == "Q=Q";
    assert "Q=Q"[1..] == "=Q";
    assert "=Q"[1..] == "Q";
    assert "Q"[1..] == [];
    calc {
      A2b("QQ=Q", 0, 0, 0);
      A2b("Q=Q", 1, 16, 0);
      Cons(65, A2b("=Q", 2, 0, 0));
      Cons(65, A2b("Q", 2, 0, 1));
      Cons(65, Cons(4, A2b([], 3, 0, 0)));
      Err(IncorrectPadding);
    }
    PaddedPair('Q', 'R', []);
    assert "QR==" == ['Q', 'R', '=', '='] + [];
  }

  /** A lone data character and an unpadded pair are the two padding errors. */
  lemma PaddingErrors()
    ensures Decode("Q") == Err(LoneDataChar)
    ensures Decode("QQ") == Err(IncorrectPadding)
    ensures Decode("QQ=") == Err(IncorrectPadding)
    ensures Decode("QQ==") == Ok([65])
  {
    assert "Q"[1..] == [];
    assert "QQ"[1..][1..] == [];
    assert "QQ="[1..][1..][1..] == [];
    assert "QQ=="[1..][1..][1..] == "=";
    calc {
      A2b("QQ==", 0, 0, 0);
      A2b("Q==", 1, 16, 0);
      Cons(65, A2b("==", 2, 0, 0));
      Cons(65, A2b("=", 2, 0, 1));
      Cons(65, Ok([]));
      { assert [65] + [] == [65]; }
      Ok([65]);
    }
  }
}
