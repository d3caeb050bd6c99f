/**
  Go's `base64.RawStdEncoding`: the standard alphabet of section 4 of RFC 4648, with
  the padding omitted as section 3.2 of RFC 4648 allows. The decoder is the non-strict
  one Go uses by default: the unused low bits of a final partial group are dropped
  without being checked.
 */
module Base64 {
  import opened Wrappers
  import opened Errors
  import opened Numbers

  /** The 64 characters of the alphabet. */
  predicate IsAlphabet(c: char) {
    ('A' <= c <= 'Z') || ('a' <= c <= 'z') || ('0' <= c <= '9') || c == '+' || c == '/'
  }

  /** The character that encodes the six-bit value `x`. */
  function CharOf(x: byte): (c: char)
    requires x < 64
    ensures IsAlphabet(c)
  {
    var i := x as int;
    if i < 26 then ('A' as int + i) as char
    else if i < 52 then ('a' as int + (i - 26)) as char
    else if i < 62 then ('0' as int + (i - 52)) as char
    else if i == 62 then '+'
    else '/'
  }

  /** The six-bit value a character stands for; `None` off the alphabet. */
  function ValueOf(c: char): (r: Option<byte>)
    ensures r.Some? <==> IsAlphabet(c)
    ensures r.Some? ==> r.value < 64
  {
    if 'A' <= c <= 'Z' then Some((c as int - 'A' as int) as byte)
    else if 'a' <= c <= 'z' then Some((c as int - 'a' as int + 26) as byte)
    else if '0' <= c <= '9' then Some((c as int - '0' as int + 52) as byte)
    else if c == '+' then Some(62)
    else if c == '/' then Some(63)
    else None
  }

  /** Decoding a character of the alphabet undoes encoding it. */
  lemma ValueOfCharOf(x: byte)
    requires x < 64
    ensures ValueOf(CharOf(x)) == Some(x)
  {
    var i := x as int;
    if i < 26 {
      assert 'A' <= CharOf(x) <= 'Z';
    } else if i < 52 {
      assert 'a' <= CharOf(x) <= 'z';
    } else if i < 62 {
      assert '0' <= CharOf(x) <= '9';
    }
  }

  /**
    The six-bit groups of `b`, most significant bits first: each three bytes give four
    groups, a final one or two bytes give two or three, the missing low bits zero.
   */
  function Sextets(b: seq<byte>): (x: seq<byte>)
    ensures |x| == (8 * |b| + 5) / 6
    ensures forall k :: 0 <= k < |x| ==> x[k] < 64
    decreases |b|
  {
    if |b| == 0 then []
    else if |b| == 1 then [b[0] >> 2, (b[0] & 3) << 4]
    else if |b| == 2 then [b[0] >> 2, ((b[0] & 3) << 4) | (b[1] >> 4), (b[1] & 15) << 2]
    else
      var rest := Sextets(b[3..]);
      assert |rest| == (8 * |b| + 5) / 6 - 4;
      Group(b[0], b[1], b[2]) + rest
  }

  /** Three bytes as four 6-bit values, most significant bits first. */
  function Group(b0: byte, b1: byte, b2: byte): (x: seq<byte>)
    ensures |x| == 4 && x[0] < 64 && x[1] < 64 && x[2] < 64 && x[3] < 64
  {
    [b0 >> 2, ((b0 & 3) << 4) | (b1 >> 4), ((b1 & 15) << 2) | (b2 >> 6), b2 & 63]
  }

  /**
    The bytes held by a run of six-bit groups: four groups give three bytes, a final two
    or three give one or two, and the bits left over are dropped unchecked.
   */
  function Octets(x: seq<byte>): (b: seq<byte>)
    requires |x| % 4 != 1
    ensures |b| == |x| * 6 / 8
    decreases |x|
  {
    if |x| == 0 then []
    else if |x| == 2 then [(x[0] << 2) | (x[1] >> 4)]
    else if |x| == 3 then [(x[0] << 2) | (x[1] >> 4), (x[1] << 4) | (x[2] >> 2)]
    else Ungroup(x[0], x[1], x[2], x[3]) + Octets(x[4..])
  }

  /** Four 6-bit values as three bytes. */
  function Ungroup(x0: byte, x1: byte, x2: byte, x3: byte): (b: seq<byte>) {
    [(x0 << 2) | (x1 >> 4), (x1 << 4) | (x2 >> 2), (x2 << 6) | x3]
  }

  /** A group of four values holds exactly the three bytes it was made from. */
  lemma UngroupGroup(b0: byte, b1: byte, b2: byte)
    ensures var x := Group(b0, b1, b2); Ungroup(x[0], x[1], x[2], x[3]) == [b0, b1, b2]
  {
    var x := Group(b0, b1, b2);
    GroupBits(b0, b1, b2, x[0], x[1], x[2], x[3]);
  }

  /** The bit-level identities behind `UngroupGroup`. */
  lemma GroupBits(b0: byte, b1: byte, b2: byte, x0: byte, x1: byte, x2: byte, x3: byte)
    requires x0 == b0 >> 2 && x1 == ((b0 & 3) << 4) | (b1 >> 4)
    requires x2 == ((b1 & 15) << 2) | (b2 >> 6) && x3 == b2 & 63
    ensures (x0 << 2) | (x1 >> 4) == b0
    ensures (x1 << 4) | (x2 >> 2) == b1
    ensures (x2 << 6) | x3 == b2
  {
  }

  /** The encoded length (8n+5)/6 is never 1 more than a multiple of 4. */
  lemma EncodedLenNotOneModFour(n: nat)
    ensures (8 * n + 5) / 6 % 4 != 1
  {
    var q, r := n / 3, n % 3;
    assert 8 * n + 5 == 24 * q + (8 * r + 5);
    assert (8 * n + 5) / 6 == 4 * q + (8 * r + 5) / 6;
  }

  /** Regrouping the six-bit groups of `b` into bytes gives back `b`. */
  lemma {:induction false} OctetsSextets(b: seq<byte>)
    ensures Octets(Sextets(b)) == b
    decreases |b|
  {
    if |b| >= 3 {
      var x := Sextets(b);
      assert x[..4] == Group(b[0], b[1], b[2]) && x[4..] == Sextets(b[3..]);
      UngroupGroup(b[0], b[1], b[2]);
      OctetsSextets(b[3..]);
      assert b == [b[0], b[1], b[2]] + b[3..];
    } else if |b| == 2 {
      assert b == [b[0], b[1]];
    }
  }

  /** The characters for a run of six-bit groups. */
  function Chars(x: seq<byte>): (s: string)
    requires forall k :: 0 <= k < |x| ==> x[k] < 64
    ensures |s| == |x|
    ensures forall k :: 0 <= k < |s| ==> IsAlphabet(s[k])
  {
    if x == [] then [] else [CharOf(x[0])] + Chars(x[1..])
  }

  /** The six-bit groups a string stands for; `None` if a character is off the alphabet. */
  function Values(s: string): (r: Option<seq<byte>>)
    ensures r.Some? <==> forall k :: 0 <= k < |s| ==> IsAlphabet(s[k])
    ensures r.Some? ==> |r.value| == |s|
  {
    if s == [] then Some([])
    else
      var v, rest := ValueOf(s[0]), Values(s[1..]);
      assert forall k :: 0 < k < |s| ==> s[k] == s[1..][k - 1];
      if v.Some? && rest.Some? then Some([v.value] + rest.value) else None
  }

  /** Reading the characters of a run of groups gives back the groups. */
  lemma {:induction false} ValuesChars(x: seq<byte>)
    requires forall k :: 0 <= k < |x| ==> x[k] < 64
    ensures Values(Chars(x)) == Some(x)
  {
    if x != [] {
      var s := Chars(x);
      assert s[0] == CharOf(x[0]) && s[1..] == Chars(x[1..]);
      ValuesChars(x[1..]);
      ValueOfCharOf(x[0]);
      assert x == [x[0]] + x[1..];
    }
  }

  /**
    `EncodeToString`: each group of three bytes becomes four characters; a final group
    of one or two bytes becomes two or three characters, with no padding. The length
    is Go's `EncodedLen` for the raw encoding, and only alphabet characters occur.
   */
  function Encode(b: seq<byte>): (s: string)
    ensures |s| == (8 * |b| + 5) / 6
    ensures forall k :: 0 <= k < |s| ==> IsAlphabet(s[k])
  {
    Chars(Sextets(b))
  }

  /**
    `DecodeString`: four characters give three bytes, a final two or three give one or
    two. A lone final character or a character off the alphabet is a
    `CorruptInputError`; the result has Go's `DecodedLen` for the raw encoding.
   */
  function Decode(s: string): (r: Result<seq<byte>, Error>)
    ensures r.Success? <==> |s| % 4 != 1 && forall k :: 0 <= k < |s| ==> IsAlphabet(s[k])
    ensures r.Success? ==> |r.value| == |s| * 6 / 8
    ensures r.Failure? ==> r.error == CorruptBase64
  {
    if |s| % 4 == 1 then Failure(CorruptBase64)
    else
      match Values(s)
      case None => Failure(CorruptBase64)
      case Some(x) => Success(Octets(x))
  }

  /** Decoding what was encoded gives back the bytes. */
  lemma DecodeEncode(b: seq<byte>)
    ensures Decode(Encode(b)) == Success(b)
  {
    var x := Sextets(b);
    ValuesChars(x);
    EncodedLenNotOneModFour(|b|);
    OctetsSextets(b);
  }
}
