/** UTF-8 as Go decodes it: the well-formed sequences of RFC 3629, sections 3 and 4. */
module Utf8 {

  type Byte = x: int | 0 <= x < 256
  type Bytes = seq<Byte>

  /** An ASCII literal. */
  function Ascii(s: string): (b: Bytes)
    requires forall i :: 0 <= i < |s| ==> s[i] as int < 0x80
  {
    seq(|s|, i requires 0 <= i < |s| => s[i] as int)
  }

  const RUNE_ERROR: int := 0xFFFD

  datatype Decoded = Decoded(rune: int, width: nat)

  predicate Cont(b: Byte) {
    0x80 <= b <= 0xBF
  }

  /** The second byte of a three-byte sequence: no overlong forms, no surrogates. */
  predicate Second3(b: Byte, c: Byte) {
    Cont(c) && (b == 0xE0 ==> c >= 0xA0) && (b == 0xED ==> c <= 0x9F)
  }

  /** The second byte of a four-byte sequence: no overlong forms, nothing above U+10FFFF. */
  predicate Second4(b: Byte, c: Byte) {
    Cont(c) && (b == 0xF0 ==> c >= 0x90) && (b == 0xF4 ==> c <= 0x8F)
  }

  /** Six more bits from a continuation byte. */
  function Join(high: int, b: Byte): int {
    high * 64 + (b as int - 0x80)
  }

  /** The first code point; RUNE_ERROR of width 1 when the bytes are not well formed. */
  function Decode(s: Bytes): (d: Decoded)
    requires s != []
    ensures 1 <= d.width <= 4 && d.width <= |s|
  {
    var b: Byte := s[0];
    if b < 0x80 then Decoded(b, 1)
    else if 0xC2 <= b <= 0xDF && |s| >= 2 && Cont(s[1]) then
      Decoded(Join(b as int - 0xC0, s[1]), 2)
    else if 0xE0 <= b <= 0xEF && |s| >= 3 && Second3(b, s[1]) && Cont(s[2]) then
      Decoded(Join(Join(b as int - 0xE0, s[1]), s[2]), 3)
    else if 0xF0 <= b <= 0xF4 && |s| >= 4 && Second4(b, s[1]) && Cont(s[2]) && Cont(s[3]) then
      Decoded(Join(Join(Join(b as int - 0xF0, s[1]), s[2]), s[3]), 4)
    else Decoded(RUNE_ERROR, 1)
  }

  /** The sequence starts with a well-formed code point. */
  predicate Starts(s: Bytes) {
    s != [] && Decode(s) != Decoded(RUNE_ERROR, 1)
  }

  predicate Valid(s: Bytes)
    decreases |s|
  {
    s == [] || (Starts(s) && Valid(s[Decode(s).width..]))
  }

  /** Unicode scalar values. */
  predicate Scalar(r: int) {
    0 <= r < 0xD800 || 0xE000 <= r <= 0x10FFFF
  }

  /** The continuation byte of the low six bits, and the bits above them. */
  function Low(r: int): Byte {
    0x80 + r % 64
  }

  function High(r: int): int {
    r / 64
  }

  function Encode(r: int): (s: Bytes)
    requires Scalar(r)
    ensures 1 <= |s| <= 4
  {
    if r < 0x80 then [r]
    else if r < 0x800 then [0xC0 + High(r), Low(r)]
    else if r < 0x10000 then [0xE0 + High(High(r)), Low(High(r)), Low(r)]
    else [0xF0 + High(High(High(r))), Low(High(High(r))), Low(High(r)), Low(r)]
  }

  lemma SplitJoin(high: int, b: Byte, r: int)
    requires Cont(b) && r == Join(high, b)
    ensures High(r) == high && Low(r) == b
  {
  }

  lemma JoinSplit(r: int)
    ensures Cont(Low(r)) && Join(High(r), Low(r)) == r
  {
  }

  lemma Range3(b: Byte, c: Byte, d: Byte)
    requires 0xE0 <= b <= 0xEF && Second3(b, c) && Cont(d)
    ensures var r := Join(Join(b as int - 0xE0, c), d);
            0x800 <= r < 0x10000 && Scalar(r)
  {
  }

  lemma Range4(b: Byte, c: Byte, d: Byte, e: Byte)
    requires 0xF0 <= b <= 0xF4 && Second4(b, c) && Cont(d) && Cont(e)
    ensures 0x10000 <= Join(Join(Join(b as int - 0xF0, c), d), e) <= 0x10FFFF
  {
  }

  lemma EncodeJoined2(b: Byte, c: Byte, r: int)
    requires 0xC2 <= b <= 0xDF && Cont(c) && r == Join(b as int - 0xC0, c)
    ensures Scalar(r) && Encode(r) == [b, c]
  {
    SplitJoin(b as int - 0xC0, c, r);
  }

  lemma EncodeJoined3(b: Byte, c: Byte, d: Byte, r: int)
    requires 0xE0 <= b <= 0xEF && Second3(b, c) && Cont(d) && r == Join(Join(b as int - 0xE0, c), d)
    ensures Scalar(r) && Encode(r) == [b, c, d]
  {
    Range3(b, c, d);
    Encode3(r, b, c, d);
  }

  lemma Encode3(r: int, b: Byte, c: Byte, d: Byte)
    requires 0x800 <= r < 0x10000 && Scalar(r) && Cont(c) && Cont(d)
    requires r == Join(Join(b as int - 0xE0, c), d)
    ensures Encode(r) == [b, c, d]
  {
    hide High, Low, Join;
    var m := Join(b as int - 0xE0, c);
    SplitJoin(m, d, r);
    SplitJoin(b as int - 0xE0, c, m);
    assert High(r) == m && Low(r) == d && High(m) == b as int - 0xE0 && Low(m) == c;
  }

  lemma Encode4(r: int, b: Byte, c: Byte, d: Byte, e: Byte)
    requires 0x10000 <= r <= 0x10FFFF && Scalar(r) && Cont(c) && Cont(d) && Cont(e)
    requires r == Join(Join(Join(b as int - 0xF0, c), d), e)
    ensures Encode(r) == [b, c, d, e]
  {
    hide High, Low, Join;
    var m := Join(b as int - 0xF0, c);
    var k := Join(m, d);
    SplitJoin(k, e, r);
    SplitJoin(m, d, k);
    SplitJoin(b as int - 0xF0, c, m);
    assert High(r) == k && Low(r) == e && High(k) == m && Low(k) == d && High(m) == b as int - 0xF0 && Low(m) == c;
  }

  lemma EncodeJoined4(b: Byte, c: Byte, d: Byte, e: Byte, r: int)
    requires 0xF0 <= b <= 0xF4 && Second4(b, c) && Cont(d) && Cont(e) && r == Join(Join(Join(b as int - 0xF0, c), d), e)
    ensures Scalar(r) && Encode(r) == [b, c, d, e]
  {
    Range4(b, c, d, e);
    Encode4(r, b, c, d, e);
  }

  /** What Decode found, said of the bytes it used. */
  lemma DecodeShape(s: Bytes)
    requires Starts(s)
    ensures var d := Decode(s);
            && (d.width == 1 ==> s[0] < 0x80 && d.rune == s[0])
            && (d.width == 2 ==> 0xC2 <= s[0] <= 0xDF && Cont(s[1]) && d.rune == Join(s[0] as int - 0xC0, s[1]))
            && (d.width == 3 ==>
                  && 0xE0 <= s[0] <= 0xEF && Second3(s[0], s[1]) && Cont(s[2])
                  && d.rune == Join(Join(s[0] as int - 0xE0, s[1]), s[2]))
            && (d.width == 4 ==>
                  && 0xF0 <= s[0] <= 0xF4 && Second4(s[0], s[1]) && Cont(s[2]) && Cont(s[3])
                  && d.rune == Join(Join(Join(s[0] as int - 0xF0, s[1]), s[2]), s[3]))
  {
  }

  /** The byte sequences of the table in section 4 of RFC 3629, and no others, start a code point. */
  lemma StartsExactlyWhen(s: Bytes)
    ensures Starts(s) <==>
              || (|s| >= 1 && s[0] <= 0x7F)
              || (|s| >= 2 && 0xC2 <= s[0] <= 0xDF && 0x80 <= s[1] <= 0xBF)
              || (|s| >= 3 && s[0] == 0xE0 && 0xA0 <= s[1] <= 0xBF && 0x80 <= s[2] <= 0xBF)
              || (|s| >= 3 && 0xE1 <= s[0] <= 0xEC && 0x80 <= s[1] <= 0xBF && 0x80 <= s[2] <= 0xBF)
              || (|s| >= 3 && s[0] == 0xED && 0x80 <= s[1] <= 0x9F && 0x80 <= s[2] <= 0xBF)
              || (|s| >= 3 && 0xEE <= s[0] <= 0xEF && 0x80 <= s[1] <= 0xBF && 0x80 <= s[2] <= 0xBF)
              || (|s| >= 4 && s[0] == 0xF0 && 0x90 <= s[1] <= 0xBF && 0x80 <= s[2] <= 0xBF && 0x80 <= s[3] <= 0xBF)
              || (|s| >= 4 && 0xF1 <= s[0] <= 0xF3 && 0x80 <= s[1] <= 0xBF && 0x80 <= s[2] <= 0xBF
                  && 0x80 <= s[3] <= 0xBF)
              || (|s| >= 4 && s[0] == 0xF4 && 0x80 <= s[1] <= 0x8F && 0x80 <= s[2] <= 0xBF && 0x80 <= s[3] <= 0xBF)
    ensures s != [] && !Starts(s) ==> Decode(s) == Decoded(0xFFFD, 1)
  {
  }

  /** Encoding what was decoded gives the same bytes: no code point has two spellings. */
  lemma DecodeEncode(s: Bytes)
    requires Starts(s)
    ensures Scalar(Decode(s).rune)
    ensures Encode(Decode(s).rune) == s[..Decode(s).width]
  {
    DecodeShape(s);
    var w := Decode(s).width;
    if w == 2 {
      EncodeJoined2(s[0], s[1], Decode(s).rune);
    } else if w == 3 {
      EncodeJoined3(s[0], s[1], s[2], Decode(s).rune);
    } else if w == 4 {
      EncodeJoined4(s[0], s[1], s[2], s[3], Decode(s).rune);
    }
  }

  lemma EncodeDecode(r: int, rest: Bytes)
    requires Scalar(r)
    ensures Starts(Encode(r) + rest)
    ensures Decode(Encode(r) + rest) == Decoded(r, |Encode(r)|)
  {
    JoinSplit(r);
    JoinSplit(High(r));
    JoinSplit(High(High(r)));
    var s := Encode(r) + rest;
    assert forall i :: 0 <= i < |Encode(r)| ==> s[i] == Encode(r)[i];
  }

  /** Decoding looks at no more than the bytes it uses. */
  lemma DecodeLocal(s: Bytes, t: Bytes)
    requires Starts(s) && Decode(s).width <= |t|
    requires s[..Decode(s).width] == t[..Decode(s).width]
    ensures Decode(t) == Decode(s)
  {
    var w := Decode(s).width;
    assert forall i :: 0 <= i < w ==> s[..w][i] == s[i] && t[..w][i] == t[i];
  }

  /** A code point cut short is not well formed. */
  lemma CutIsBad(s: Bytes, k: nat)
    requires Starts(s) && 0 < k < Decode(s).width
    ensures !Starts(s[..k])
  {
  }

  // Truncation

  /** The longest prefix of whole code points that fits in n bytes. */
  function LongestPrefix(s: Bytes, n: nat): (p: Bytes)
    requires Valid(s)
    decreases |s|
  {
    if s == [] || Decode(s).width > n then []
    else
      var w := Decode(s).width;
      s[..w] + LongestPrefix(s[w..], n - w)
  }

  lemma {:induction false} LongestPrefixFits(s: Bytes, n: nat)
    requires Valid(s)
    ensures var p := LongestPrefix(s, n);
            && p <= s && |p| <= n && Valid(p)
            && (|s| <= n ==> p == s)
            && (|s| > n ==> |p| + 3 >= n)
    decreases |s|
  {
    if s != [] && Decode(s).width <= n {
      var w := Decode(s).width;
      LongestPrefixFits(s[w..], n - w);
      var p := LongestPrefix(s, n);
      DecodeLocal(s, p);
      assert p[w..] == LongestPrefix(s[w..], n - w);
    }
  }

  /** Between the longest prefix and the bound, no other cut is well formed. */
  lemma {:induction false} OnlyLongestIsValid(s: Bytes, k: nat, n: nat)
    requires Valid(s) && |LongestPrefix(s, n)| <= k <= n && k <= |s|
    ensures Valid(s[..k]) <==> k == |LongestPrefix(s, n)|
    decreases |s|
  {
    if s != [] {
      var w := Decode(s).width;
      if k >= w {
        DecodeLocal(s, s[..k]);
        assert s[..k][w..] == s[w..][..k - w];
        OnlyLongestIsValid(s[w..], k - w, n - w);
      } else if k > 0 {
        CutIsBad(s, k);
        LongestPrefixFits(s, n);
      }
    }
  }

  /** It is the longest of all well-formed prefixes that fit. */
  lemma LongestPrefixIsLongest(s: Bytes, p: Bytes, n: nat)
    requires Valid(s) && Valid(p) && p <= s && |p| <= n
    ensures |p| <= |LongestPrefix(s, n)|
  {
    if |p| > |LongestPrefix(s, n)| {
      assert s[..|p|] == p;
      OnlyLongestIsValid(s, |p|, n);
    }
  }

  /** The code point after the longest prefix does not fit. */
  lemma {:induction false} NextDoesNotFit(s: Bytes, n: nat)
    requires Valid(s) && |s| > n
    ensures var k := |LongestPrefix(s, n)|;
            k < |s| && k + Decode(s[k..]).width > n
    decreases |s|
  {
    var w := Decode(s).width;
    if w <= n {
      var rest := s[w..];
      NextDoesNotFit(rest, n - w);
      var k := |LongestPrefix(rest, n - w)|;
      assert |LongestPrefix(s, n)| == w + k;
      assert s[w + k..] == rest[k..];
    } else {
      assert s[0..] == s;
    }
  }

  /** A code point that ends in an ASCII byte is that byte. */
  lemma AsciiEnds(s: Bytes, k: nat)
    requires Starts(s) && 0 < k <= Decode(s).width && s[k - 1] < 0x80
    ensures k == Decode(s).width == 1
  {
    DecodeShape(s);
  }

  lemma CutHere(s: Bytes, n: nat)
    requires Valid(s) && s != [] && Decode(s).width < |s| && Decode(s).width <= n
    requires Decode(s).width + Decode(s[Decode(s).width..]).width > n
    ensures LongestPrefix(s, n) == s[..Decode(s).width]
  {
    assert LongestPrefix(s[Decode(s).width..], n - Decode(s).width) == [];
  }

  lemma CutLater(s: Bytes, k: nat, n: nat)
    requires Valid(s) && s != [] && Decode(s).width <= k <= |s| && k <= n
    requires LongestPrefix(s[Decode(s).width..], n - Decode(s).width) == s[Decode(s).width..k]
    ensures LongestPrefix(s, n) == s[..k]
  {
  }

  /** A cut after an ASCII byte, before a code point that does not fit, is the longest prefix. */
  lemma {:induction false} CutIsLongest(s: Bytes, k: nat, n: nat)
    requires Valid(s) && 0 < k < |s| && k <= n
    requires s[k - 1] < 0x80 && k + Decode(s[k..]).width > n
    ensures LongestPrefix(s, n) == s[..k]
    decreases |s|
  {
    var w := Decode(s).width;
    if k <= w {
      AsciiEnds(s, k);
      CutHere(s, n);
    } else {
      var rest := s[w..];
      assert rest[k - w..] == s[k..] && rest[..k - w] == s[w..k];
      CutIsLongest(rest, k - w, n - w);
      CutLater(s, k, n);
    }
  }
}
