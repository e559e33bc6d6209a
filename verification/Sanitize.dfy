/** SanitizeFilename of internal/converter/archive.go, over the bytes of a Go string. */
module Sanitize {
  import opened Utf8

  const MAX_FILENAME_BYTES: nat := 255

  const SLASH: Byte := 0x2F
  const DOT: Byte := 0x2E
  const SPACE: Byte := 0x20
  const DASH: Byte := 0x2D
  const UNDERSCORE: Byte := 0x5F

  // 1. Null bytes

  function StripNul(s: Bytes): Bytes {
    if s == [] then []
    else (if s[0] == 0 then [] else [s[0]]) + StripNul(s[1..])
  }

  // 2. The last path component, as filepath.Base

  function TrimSlashes(s: Bytes): Bytes {
    if s != [] && s[|s| - 1] == SLASH then TrimSlashes(s[..|s| - 1]) else s
  }

  function AfterSlash(s: Bytes): Bytes {
    if s == [] || s[|s| - 1] == SLASH then []
    else AfterSlash(s[..|s| - 1]) + [s[|s| - 1]]
  }

  function Base(s: Bytes): Bytes {
    if s == [] then [DOT]
    else
      var name := AfterSlash(TrimSlashes(s));
      if name == [] then [SLASH] else name
  }

  // 3. Problematic characters

  predicate Dangerous(r: int) {
    || r <= 0x1F || r == 0x7F
    || r in {0x2F, 0x5C, 0x27, 0x22, 0x60, 0x24, 0x21, 0x3B, 0x26, 0x7C}  // / \ ' " ` $ ! ; & |
    || r in {0x28, 0x29, 0x7B, 0x7D, 0x5B, 0x5D, 0x3C, 0x3E}             // ( ) { } [ ] < >
    || r in {0x40, 0x23, 0x7E, 0x2A, 0x3F}                               // @ # ~ * ?
    || 0x200B <= r <= 0x200F || 0x202A <= r <= 0x202E || 0x2060 <= r <= 0x2064
    || r == 0xFEFF || 0xFFF9 <= r <= 0xFFFB
  }

  function CleanRune(r: int): int {
    if Dangerous(r) then UNDERSCORE else r
  }

  /** strings.Map: a byte that is not well formed counts as U+FFFD. */
  function MapRunes(s: Bytes): Bytes
    decreases |s|
  {
    if s == [] then []
    else
      var d := Decode(s);
      RuneIsScalar(s);
      Encode(CleanRune(d.rune)) + MapRunes(s[d.width..])
  }

  lemma RuneIsScalar(s: Bytes)
    requires s != []
    ensures Scalar(Decode(s).rune)
  {
    if Starts(s) {
      DecodeEncode(s);
    }
  }

  // 5. Leading and trailing dots and spaces

  predicate Trimmable(b: Byte) {
    b == DOT || b == SPACE
  }

  function TrimLeft(s: Bytes): Bytes {
    if s != [] && Trimmable(s[0]) then TrimLeft(s[1..]) else s
  }

  function TrimRight(s: Bytes): Bytes {
    if s != [] && Trimmable(s[|s| - 1]) then TrimRight(s[..|s| - 1]) else s
  }

  // 6. Leading dash

  function Undash(s: Bytes): Bytes {
    if s != [] && s[0] == DASH then [UNDERSCORE] + s[1..] else s
  }

  // 7. Device names

  /** Only ASCII letters have an upper case among the letters of the device names. */
  function Upper(s: Bytes): (u: Bytes)
    ensures |u| == |s|
  {
    seq(|s|, i requires 0 <= i < |s| => if 0x61 <= s[i] <= 0x7A then s[i] - 0x20 else s[i])
  }

  /** What stands before the first dot. */
  function Stem(s: Bytes): Bytes {
    if s == [] || s[0] == DOT then [] else [s[0]] + Stem(s[1..])
  }

  predicate Device(u: Bytes) {
    || u in {Ascii("CON"), Ascii("PRN"), Ascii("AUX"), Ascii("NUL")}
    || (|u| == 4 && u[..3] in {Ascii("COM"), Ascii("LPT")} && 0x30 <= u[3] <= 0x39)
  }

  predicate Reserved(name: Bytes) {
    Device(Stem(Upper(name)))
  }

  function Unreserve(name: Bytes): Bytes {
    if Reserved(name) then [UNDERSCORE] + name else name
  }

  /** Stages 1 to 7. */
  function Named(filename: Bytes): Bytes {
    var name := MapRunes(Base(StripNul(filename)));
    if name in {[], [DOT], [DOT, DOT]} then Ascii("file")
    else
      var trimmed := TrimRight(TrimLeft(name));
      if trimmed == [] then Ascii("file") else Unreserve(Undash(trimmed))
  }

  // 8. Truncation

  predicate Truncates(filename: Bytes) {
    |Named(filename)| > MAX_FILENAME_BYTES
  }

  /** A byte sequence of well-formed, harmless code points. */
  predicate Proper(s: Bytes)
    decreases |s|
  {
    s == [] || (Starts(s) && !Dangerous(Decode(s).rune) && Proper(s[Decode(s).width..]))
  }

  lemma {:induction false} ProperIsValid(s: Bytes)
    requires Proper(s)
    ensures Valid(s)
    decreases |s|
  {
    if s != [] {
      ProperIsValid(s[Decode(s).width..]);
    }
  }

  lemma SameFirst(s: Bytes, t: Bytes)
    requires Starts(s)
    ensures Starts(s + t) && Decode(s + t) == Decode(s)
    ensures (s + t)[Decode(s).width..] == s[Decode(s).width..] + t
  {
    var w := Decode(s).width;
    assert (s + t)[..w] == s[..w];
    DecodeLocal(s, s + t);
  }

  lemma {:induction false} ProperConcat(s: Bytes, t: Bytes)
    requires Proper(s) && Proper(t)
    ensures Proper(s + t)
    decreases |s|
  {
    if s == [] {
      assert s + t == t;
    } else {
      ProperConcat(s[Decode(s).width..], t);
      SameFirst(s, t);
    }
  }

  lemma ProperAscii(b: Byte, rest: Bytes)
    requires b < 0x80 && !Dangerous(b) && Proper(rest)
    ensures Proper([b] + rest)
  {
    assert ([b] + rest)[1..] == rest;
  }

  lemma {:induction false} MapIsProper(s: Bytes)
    ensures Proper(MapRunes(s))
    decreases |s|
  {
    if s != [] {
      var d := Decode(s);
      RuneIsScalar(s);
      MapIsProper(s[d.width..]);
      EncodeDecode(CleanRune(d.rune), []);
      var e := Encode(CleanRune(d.rune));
      assert e + [] == e && e[|e|..] == [];
      ProperConcat(e, MapRunes(s[d.width..]));
    }
  }

  lemma {:induction false} MapKeepsProper(s: Bytes)
    requires Proper(s)
    ensures MapRunes(s) == s
    decreases |s|
  {
    if s != [] {
      DecodeEncode(s);
      MapKeepsProper(s[Decode(s).width..]);
    }
  }

  /** Harmless names hold no null byte and no slash. */
  lemma {:induction false} ProperBytes(s: Bytes)
    requires Proper(s)
    ensures 0 !in s && SLASH !in s
    decreases |s|
  {
    if s != [] {
      var w := Decode(s).width;
      ProperBytes(s[w..]);
      assert s == s[..w] + s[w..];
      assert forall i :: 0 <= i < w ==> s[i] != 0 && s[i] != SLASH;
    }
  }

  lemma {:induction false} KeepsWithoutNul(s: Bytes)
    requires 0 !in s
    ensures StripNul(s) == s
  {
    if s != [] {
      KeepsWithoutNul(s[1..]);
    }
  }

  lemma {:induction false} KeepsWithoutSlash(s: Bytes)
    requires SLASH !in s
    ensures TrimSlashes(s) == s && AfterSlash(s) == s
  {
    if s != [] {
      KeepsWithoutSlash(s[..|s| - 1]);
    }
  }

  lemma {:induction false} ProperDropLast(s: Bytes)
    requires Proper(s) && s != [] && s[|s| - 1] < 0x80
    ensures Proper(s[..|s| - 1])
    decreases |s|
  {
    var w := Decode(s).width;
    if w < |s| {
      ProperDropLast(s[w..]);
      DecodeLocal(s, s[..|s| - 1]);
      assert s[..|s| - 1][w..] == s[w..][..|s| - w - 1];
    }
  }

  lemma {:induction false} TrimRightProper(s: Bytes)
    requires Proper(s)
    ensures var t := TrimRight(s);
            Proper(t) && t <= s && (t != [] ==> !Trimmable(t[|t| - 1]))
  {
    if s != [] && Trimmable(s[|s| - 1]) {
      ProperDropLast(s);
      TrimRightProper(s[..|s| - 1]);
    }
  }

  lemma {:induction false} TrimLeftProper(s: Bytes)
    requires Proper(s)
    ensures var t := TrimLeft(s);
            Proper(t) && |t| <= |s| && (t != [] ==> !Trimmable(t[0]))
  {
    if s != [] && Trimmable(s[0]) {
      TrimLeftProper(s[1..]);
    }
  }

  /** Starts as a file name may. */
  predicate GoodStart(s: Bytes) {
    s != [] && !Trimmable(s[0]) && s[0] != DASH
  }

  predicate GoodEnd(s: Bytes) {
    s != [] && !Trimmable(s[|s| - 1])
  }

  lemma UndashProper(s: Bytes)
    requires Proper(s) && s != [] && !Trimmable(s[0])
    ensures Proper(Undash(s)) && GoodStart(Undash(s)) && |Undash(s)| == |s|
    ensures GoodEnd(s) ==> GoodEnd(Undash(s))
    ensures GoodStart(s) ==> Undash(s) == s
  {
    if s[0] == DASH {
      assert ([UNDERSCORE] + s[1..])[1..] == s[1..];
    }
  }

  lemma UnreserveProper(s: Bytes)
    requires Proper(s) && GoodStart(s)
    ensures var u := Unreserve(s);
            Proper(u) && GoodStart(u) && !Reserved(u) && (GoodEnd(s) ==> GoodEnd(u))
  {
    if Reserved(s) {
      var u := [UNDERSCORE] + s;
      assert u[1..] == s;
      assert Upper(u)[0] == UNDERSCORE;
      assert Stem(Upper(u))[0] == UNDERSCORE;
    }
  }

  lemma NamedIsGood(filename: Bytes)
    ensures var name := Named(filename);
            Proper(name) && GoodStart(name) && GoodEnd(name) && !Reserved(name)
  {
    hide StripNul, Base, MapRunes, TrimLeft, TrimRight, Undash, Unreserve, Reserved, Proper;
    var name := MapRunes(Base(StripNul(filename)));
    MapIsProper(Base(StripNul(filename)));
    TrimLeftProper(name);
    TrimRightProper(TrimLeft(name));
    var trimmed := TrimRight(TrimLeft(name));
    if name in {[], [DOT], [DOT, DOT]} || trimmed == [] {
      FileIsGood();
    } else {
      UndashProper(trimmed);
      UnreserveProper(Undash(trimmed));
    }
  }

  lemma FileIsGood()
    ensures var f := Ascii("file");
            Proper(f) && GoodStart(f) && GoodEnd(f) && !Reserved(f)
  {
    ProperAscii(0x65, []);
    ProperAscii(0x6C, [0x65] + []);
    ProperAscii(0x69, [0x6C] + ([0x65] + []));
    ProperAscii(0x66, [0x69] + ([0x6C] + ([0x65] + [])));
    assert Ascii("file") == [0x66] + ([0x69] + ([0x6C] + ([0x65] + [])));
    assert Stem(Upper(Ascii("file")))[0] == 0x46;
  }

  /** The whole of SanitizeFilename, truncation being to the longest whole code points that fit. */
  function Sanitized(filename: Bytes): (r: Bytes)
  {
    NamedIsGood(filename);
    ProperIsValid(Named(filename));
    var name := Named(filename);
    if |name| <= MAX_FILENAME_BYTES then name else LongestPrefix(name, MAX_FILENAME_BYTES)
  }

  /** Stage 8: cut bytes, then back off until the rest is well formed. */
  method Truncate(whole: Bytes) returns (name: Bytes)
    requires Valid(whole) && |whole| > MAX_FILENAME_BYTES
    ensures name == LongestPrefix(whole, MAX_FILENAME_BYTES)
  {
    LongestPrefixFits(whole, MAX_FILENAME_BYTES);
    name := whole[..MAX_FILENAME_BYTES];
    while |name| > 0 && !Valid(name)
      invariant name <= whole
      invariant |LongestPrefix(whole, MAX_FILENAME_BYTES)| <= |name| <= MAX_FILENAME_BYTES
      decreases |name|
    {
      assert whole[..|name|] == name;
      OnlyLongestIsValid(whole, |name|, MAX_FILENAME_BYTES);
      name := name[..|name| - 1];
    }
    assert whole[..|name|] == name;
    OnlyLongestIsValid(whole, |name|, MAX_FILENAME_BYTES);
  }

  /** Truncation always leaves something. */
  lemma TruncationLeavesSome(filename: Bytes)
    ensures Valid(Named(filename))
    ensures Truncates(filename) ==>
              && |LongestPrefix(Named(filename), MAX_FILENAME_BYTES)| > 0
              && Sanitized(filename) == LongestPrefix(Named(filename), MAX_FILENAME_BYTES)
  {
    NamedIsGood(filename);
    ProperIsValid(Named(filename));
    LongestPrefixFits(Named(filename), MAX_FILENAME_BYTES);
  }

  /** The function as it is written. */
  method SanitizeFilename(filename: Bytes) returns (name: Bytes)
    ensures name == Sanitized(filename)
  {
    name := NameStages(filename);
    if |name| > MAX_FILENAME_BYTES {
      TruncationLeavesSome(filename);
      name := Truncate(name);
      assert |name| > 0;  // so the last fallback to "file" is never taken
    }
  }

  /** Stages 1 to 7, as they are written. */
  method NameStages(filename: Bytes) returns (name: Bytes)
    ensures name == Named(filename)
  {
    name := StripNul(filename);
    name := Base(name);
    name := MapRunes(name);
    if name in {[], [DOT], [DOT, DOT]} {
      return Ascii("file");
    }
    name := TrimRight(TrimLeft(name));
    if name == [] {
      return Ascii("file");
    }
    if name[0] == DASH {
      name := [UNDERSCORE] + name[1..];
    }
    if Reserved(name) {
      name := [UNDERSCORE] + name;
    }
  }

  // What every result is

  /** One code point more in front. */
  lemma ProperFirst(s: Bytes, p: Bytes)
    requires Starts(s) && !Dangerous(Decode(s).rune) && Decode(s).width <= |p|
    requires p[..Decode(s).width] == s[..Decode(s).width] && Proper(p[Decode(s).width..])
    ensures Proper(p)
  {
    hide Dangerous;
    DecodeLocal(s, p);
  }

  /** Truncation keeps the code points. */
  lemma {:induction false} PrefixProper(s: Bytes, n: nat)
    requires Proper(s) && Valid(s)
    ensures Proper(LongestPrefix(s, n))
    decreases |s|
  {
    hide Dangerous;
    if s != [] && Decode(s).width <= n {
      var w := Decode(s).width;
      var q := LongestPrefix(s[w..], n - w);
      var p := s[..w] + q;
      PrefixProper(s[w..], n - w);
      assert p[..w] == s[..w] && p[w..] == q;
      ProperFirst(s, p);
      assert LongestPrefix(s, n) == p;
    }
  }

  lemma {:induction false} StemOfPrefix(s: Bytes, p: Bytes)
    requires p <= s
    ensures Stem(p) == Stem(s) || Stem(p) == p
  {
    if p != [] && p[0] != DOT {
      StemOfPrefix(s[1..], p[1..]);
    }
  }

  lemma LongPrefixUnreserved(s: Bytes, p: Bytes)
    requires p <= s && |p| > 4 && !Reserved(s)
    ensures !Reserved(p)
  {
    assert Upper(p) == Upper(s)[..|p|];
    StemOfPrefix(Upper(s), Upper(p));
  }

  /** A name that is safe to use. */
  predicate Safe(name: Bytes) {
    && 0 < |name| <= MAX_FILENAME_BYTES
    && Proper(name)
    && GoodStart(name)
    && !Reserved(name)
  }

  /** Proper in plain words: well-formed UTF-8 of code points none of which is mapped. */
  function Runes(s: Bytes): seq<int>
    decreases |s|
  {
    if s == [] then [] else [Decode(s).rune] + Runes(s[Decode(s).width..])
  }

  lemma {:induction false} ProperMeaning(s: Bytes)
    ensures Proper(s) <==> Valid(s) && forall i :: 0 <= i < |Runes(s)| ==> !Dangerous(Runes(s)[i])
    decreases |s|
  {
    if s != [] {
      var rest := s[Decode(s).width..];
      ProperMeaning(rest);
      assert Runes(s)[0] == Decode(s).rune;
      assert Runes(s)[1..] == Runes(rest);
      assert forall i :: 0 <= i < |Runes(rest)| ==> Runes(rest)[i] == Runes(s)[i + 1];
    }
  }

  lemma ResultIsSafe(filename: Bytes)
    ensures Safe(Sanitized(filename))
    ensures !Truncates(filename) ==> GoodEnd(Sanitized(filename))
    ensures Truncates(filename) ==> |Sanitized(filename)| >= MAX_FILENAME_BYTES - 3
  {
    NamedIsGood(filename);
    var name := Named(filename);
    ProperIsValid(name);
    if Truncates(filename) {
      LongestPrefixFits(name, MAX_FILENAME_BYTES);
      PrefixProper(name, MAX_FILENAME_BYTES);
      LongPrefixUnreserved(name, LongestPrefix(name, MAX_FILENAME_BYTES));
    }
  }

  // Fixpoints

  /** What the early stages make of a harmless name: only its end may still be trimmed. */
  lemma NamedOfProper(name: Bytes)
    requires Proper(name) && GoodStart(name)
    ensures TrimRight(name) != [] && Named(name) == Unreserve(TrimRight(name))
  {
    assert Base(StripNul(name)) == name by {
      ProperBytes(name);
      KeepsWithoutNul(name);
      KeepsWithoutSlash(name);
    }
    MapKeepsProper(name);
    assert name[0] != DOT && name !in {[], [DOT], [DOT, DOT]};
    TrimRightKeepsFirst(name);
    var trimmed := TrimRight(name);
    assert TrimLeft(name) == name && Undash(trimmed) == trimmed;
  }

  lemma {:induction false} TrimRightKeepsFirst(s: Bytes)
    requires s != [] && !Trimmable(s[0])
    ensures TrimRight(s) != [] && TrimRight(s)[0] == s[0]
    ensures GoodEnd(s) <==> TrimRight(s) == s
    ensures !GoodEnd(s) ==> |TrimRight(s)| < |s|
  {
    if Trimmable(s[|s| - 1]) {
      TrimRightKeepsFirst(s[..|s| - 1]);
    }
  }

  /** A second pass never truncates, and always ends well. */
  lemma SecondPass(name: Bytes)
    requires Safe(name)
    ensures !Truncates(name)
    ensures Sanitized(name) == name <==> GoodEnd(name)
  {
    NamedOfProper(name);
    TrimRightKeepsFirst(name);
    NamedIsGood(name);
    if GoodEnd(name) {
      assert Named(name) == name;
    }
  }

  /** One pass is enough exactly when its result does not end in a dot or a space. */
  lemma StableExactlyWhen(filename: Bytes)
    ensures Sanitized(Sanitized(filename)) == Sanitized(filename) <==> GoodEnd(Sanitized(filename))
    ensures !Truncates(filename) ==> Sanitized(Sanitized(filename)) == Sanitized(filename)
  {
    ResultIsSafe(filename);
    SecondPass(Sanitized(filename));
  }

  /**
   The name is cut at k, after a dot or a space and before a code point that passes the bound.
   */
  predicate CutAt(name: Bytes, k: nat) {
    && 0 < k <= MAX_FILENAME_BYTES && k < |name|
    && Trimmable(name[k - 1])
    && k + Decode(name[k..]).width > MAX_FILENAME_BYTES
  }

  /** What is left of a long name ends in a dot or a space exactly when there is such a cut. */
  lemma BadEndIsCut(name: Bytes, p: Bytes)
    requires Valid(name) && |name| > MAX_FILENAME_BYTES && p == LongestPrefix(name, MAX_FILENAME_BYTES) && p != []
    ensures !GoodEnd(p) <==> exists k :: CutAt(name, k)
  {
    LongestPrefixFits(name, MAX_FILENAME_BYTES);
    assert p == name[..|p|] && p[|p| - 1] == name[|p| - 1];
    if !GoodEnd(p) {
      NextDoesNotFit(name, MAX_FILENAME_BYTES);
      assert CutAt(name, |p|);
    }
    if k :| CutAt(name, k) {
      CutIsLongest(name, k, MAX_FILENAME_BYTES);
    }
  }

  /**
   One pass is not enough exactly when the name that reaches stage 8 is too long and has a dot or
   a space in front of the code point that passes the bound.
   */
  lemma UnstableExactlyWhen(filename: Bytes)
    ensures Sanitized(Sanitized(filename)) != Sanitized(filename) <==>
              Truncates(filename) && exists k :: CutAt(Named(filename), k)
  {
    StableExactlyWhen(filename);
    ResultIsSafe(filename);
    if Truncates(filename) {
      NamedIsGood(filename);
      ProperIsValid(Named(filename));
      BadEndIsCut(Named(filename), Sanitized(filename));
    }
  }

  /** Two passes are always enough. */
  lemma TwoPassesSettle(filename: Bytes)
    ensures Sanitized(Sanitized(Sanitized(filename))) == Sanitized(Sanitized(filename))
  {
    var once := Sanitized(filename);
    ResultIsSafe(filename);
    SecondPass(once);
    StableExactlyWhen(once);
  }

  lemma {:induction false} PlainIsProper(s: Bytes)
    requires forall i :: 0 <= i < |s| ==> s[i] < 0x80 && !Dangerous(s[i])
    ensures Proper(s)
  {
    if s != [] {
      PlainIsProper(s[1..]);
      ProperAscii(s[0], s[1..]);
      assert [s[0]] + s[1..] == s;
    }
  }

  /** Letters, a space as the 255th byte, and one letter more. */
  const OVERLONG_NAME: Bytes := seq(254, _ => 0x61) + Ascii(" b")

  /** Plain letters in front, and nothing to trim behind: the early stages keep the name. */
  lemma PlainIsKept(s: Bytes)
    requires |s| > 4 && DOT !in s && GoodStart(s) && GoodEnd(s)
    requires forall i :: 0 <= i < |s| ==> s[i] < 0x80 && !Dangerous(s[i])
    ensures Named(s) == s
  {
    PlainIsProper(s);
    NamedOfProper(s);
    TrimRightKeepsFirst(s);
    LongStemUnreserved(s);
  }

  lemma OverlongBytes()
    ensures var s := OVERLONG_NAME;
            && |s| == 256 && s[254] == SPACE && s[255] == 0x62
            && forall i :: 0 <= i < 254 ==> s[i] == 0x61
  {
  }

  /** Truncation can leave a trailing space, so that one pass is not a fixpoint. */
  lemma OnePassMayNotSettle()
    ensures Sanitized(Sanitized(OVERLONG_NAME)) != Sanitized(OVERLONG_NAME)
  {
    OverlongBytes();
    SpaceBeforeTheCut(OVERLONG_NAME);
  }

  lemma SpaceBeforeTheCut(s: Bytes)
    requires |s| == 256 && s[254] == SPACE && s[255] == 0x62
    requires forall i :: 0 <= i < 254 ==> s[i] == 0x61
    ensures Sanitized(Sanitized(s)) != Sanitized(s)
  {
    PlainIsKept(s);
    assert s[255..][0] == 0x62;
    assert CutAt(s, 255);
    UnstableExactlyWhen(s);
  }

  lemma LongStemUnreserved(s: Bytes)
    requires DOT !in s && |s| > 4
    ensures !Reserved(s)
  {
    assert DOT !in Upper(s);
    NoDotStem(Upper(s));
  }

  lemma {:induction false} NoDotStem(s: Bytes)
    requires DOT !in s
    ensures Stem(s) == s
  {
    if s != [] {
      NoDotStem(s[1..]);
    }
  }

  // What the first stages keep of the name

  /** Rune by rune: the dangerous ones become underscores, the others stay where they are. */
  lemma {:induction false} MapRunewise(s: Bytes)
    ensures |Runes(MapRunes(s))| == |Runes(s)|
    ensures forall i :: 0 <= i < |Runes(s)| ==>
              Runes(MapRunes(s))[i] == if Dangerous(Runes(s)[i]) then UNDERSCORE else Runes(s)[i]
    decreases |s|
  {
    if s != [] {
      var d := Decode(s);
      var rest := s[d.width..];
      RuneIsScalar(s);
      MapRunewise(rest);
      var e := Encode(CleanRune(d.rune));
      EncodeDecode(CleanRune(d.rune), MapRunes(rest));
      assert MapRunes(s)[|e|..] == MapRunes(rest);
      assert Runes(MapRunes(s)) == [CleanRune(d.rune)] + Runes(MapRunes(rest));
      assert Runes(s) == [d.rune] + Runes(rest);
    }
  }

  predicate AllSlashes(s: Bytes) {
    forall i :: 0 <= i < |s| ==> s[i] == SLASH
  }

  /** The base is the last component: no slash in it, a slash or nothing before, only slashes after. */
  lemma BaseIsLastComponent(s: Bytes) returns (before: Bytes, after: Bytes)
    requires !AllSlashes(s)
    ensures s == before + Base(s) + after && AllSlashes(after)
    ensures before == [] || before[|before| - 1] == SLASH
    ensures Base(s) != [] && SLASH !in Base(s)
  {
    after := TrimmedSlashes(s);
    before := BeforeBase(TrimSlashes(s));
  }

  lemma {:induction false} TrimmedSlashes(s: Bytes) returns (after: Bytes)
    ensures s == TrimSlashes(s) + after && AllSlashes(after)
    ensures TrimSlashes(s) == [] || TrimSlashes(s)[|TrimSlashes(s)| - 1] != SLASH
  {
    if s != [] && s[|s| - 1] == SLASH {
      var rest := TrimmedSlashes(s[..|s| - 1]);
      after := rest + [SLASH];
      assert s == s[..|s| - 1] + [SLASH];
    } else {
      after := [];
    }
  }

  lemma {:induction false} BeforeBase(s: Bytes) returns (before: Bytes)
    ensures s == before + AfterSlash(s) && SLASH !in AfterSlash(s)
    ensures before == [] || before[|before| - 1] == SLASH
  {
    if s == [] || s[|s| - 1] == SLASH {
      before := s;
    } else {
      before := BeforeBase(s[..|s| - 1]);
      assert s == s[..|s| - 1] + [s[|s| - 1]];
    }
  }
}
