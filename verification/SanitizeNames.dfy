/** What a file name becomes, from its bytes: every stage of SanitizeFilename told apart from the others. */
module SanitizeNames {
  import opened Sanitize
  import opened Utf8

  // Which characters are replaced

  /** Of ASCII, letters, digits and ten signs stay; beyond it, only the invisible format characters go. */
  lemma DangerousExactlyWhen(r: int)
    requires Scalar(r)
    ensures r < 0x80 ==>
              (!Dangerous(r) <==>
                 || 0x30 <= r <= 0x39 || 0x41 <= r <= 0x5A || 0x61 <= r <= 0x7A
                 || r in {0x20, 0x25, 0x2B, 0x2C, 0x2D, 0x2E, 0x3A, 0x3D, 0x5E, 0x5F})
    ensures r >= 0x80 ==>
              (Dangerous(r) <==>
                 || r in {0x200B, 0x200C, 0x200D, 0x200E, 0x200F}
                 || r in {0x202A, 0x202B, 0x202C, 0x202D, 0x202E}
                 || r in {0x2060, 0x2061, 0x2062, 0x2063, 0x2064}
                 || r in {0xFEFF, 0xFFF9, 0xFFFA, 0xFFFB})
  {
  }

  /** Well-formed bytes are known by their code points. */
  lemma {:induction false} RunesDetermine(a: Bytes, b: Bytes)
    requires Valid(a) && Valid(b) && Runes(a) == Runes(b)
    ensures a == b
    decreases |a|
  {
    assert a == [] <==> b == [];
    if a != [] {
      var v, w := Decode(a).width, Decode(b).width;
      assert Runes(a)[0] == Runes(b)[0] && Runes(a)[1..] == Runes(b)[1..];
      DecodeEncode(a);
      DecodeEncode(b);
      assert a == a[..v] + a[v..] && b == b[..w] + b[w..];
      RunesDetermine(a[v..], b[w..]);
    }
  }

  // Which names are reserved

  /** These letters, each in either case, come first. */
  predicate AnyCase(name: Bytes, letters: string) {
    && |letters| <= |name|
    && forall i :: 0 <= i < |letters| ==>
         name[i] as int == letters[i] as int || name[i] as int == letters[i] as int + 0x20
  }

  predicate Ends(name: Bytes, k: nat) {
    |name| == k || (|name| > k && name[k] == DOT)
  }

  lemma {:induction false} StemStops(u: Bytes, k: nat)
    requires k <= |u| && Ends(u, k) && DOT !in u[..k]
    ensures Stem(u) == u[..k]
  {
    if k > 0 {
      assert u[0] in u[..k];
      assert u[1..][..k - 1] == u[..k][1..];
      StemStops(u[1..], k - 1);
    }
  }

  lemma {:induction false} StemEnds(u: Bytes)
    ensures |Stem(u)| <= |u| && Ends(u, |Stem(u)|) && u[..|Stem(u)|] == Stem(u)
  {
    if u != [] && u[0] != DOT {
      StemEnds(u[1..]);
    }
  }

  lemma UpperSpells(name: Bytes, letters: string)
    requires |letters| == 3 <= |name| && forall i :: 0 <= i < 3 ==> 'A' <= letters[i] <= 'Z'
    ensures AnyCase(name, letters) <==> Upper(name)[..3] == Ascii(letters)
    ensures AnyCase(name, letters) ==> DOT !in Upper(name)[..3]
  {
    var u, w := Upper(name), Ascii(letters);
    assert |u[..3]| == |w| == 3 && forall i :: 0 <= i < 3 ==> u[..3][i] == u[i] && w[i] == letters[i] as int;
    assert u[..3] == w <==> u[0] == w[0] && u[1] == w[1] && u[2] == w[2];
  }

  lemma UpperEnds(name: Bytes, k: nat)
    ensures Ends(Upper(name), k) <==> Ends(name, k)
  {
  }

  predicate SpellsDevice(name: Bytes) {
    || ((AnyCase(name, "CON") || AnyCase(name, "PRN") || AnyCase(name, "AUX") || AnyCase(name, "NUL")) && Ends(name, 3))
    || ((AnyCase(name, "COM") || AnyCase(name, "LPT")) && Ends(name, 4) && 0x30 <= name[3] <= 0x39)
  }

  lemma UpperSpellsAll(name: Bytes)
    requires |name| >= 3
    ensures var u := Upper(name)[..3];
            && (AnyCase(name, "CON") <==> u == Ascii("CON")) && (AnyCase(name, "PRN") <==> u == Ascii("PRN"))
            && (AnyCase(name, "AUX") <==> u == Ascii("AUX")) && (AnyCase(name, "NUL") <==> u == Ascii("NUL"))
            && (AnyCase(name, "COM") <==> u == Ascii("COM")) && (AnyCase(name, "LPT") <==> u == Ascii("LPT"))
            && (u in {Ascii("CON"), Ascii("PRN"), Ascii("AUX"), Ascii("NUL"), Ascii("COM"), Ascii("LPT")} ==> DOT !in u)
  {
    hide AnyCase, Ascii, Upper;
    UpperSpells(name, "CON");
    UpperSpells(name, "PRN");
    UpperSpells(name, "AUX");
    UpperSpells(name, "NUL");
    UpperSpells(name, "COM");
    UpperSpells(name, "LPT");
  }

  /** The 24 device names, in either case, alone or before a dot. */
  lemma ReservedExactlyWhen(name: Bytes)
    ensures Reserved(name) <==> SpellsDevice(name)
  {
    hide AnyCase, Stem;
    var u := Upper(name);
    StemEnds(u);
    var k := |Stem(u)|;
    if Reserved(name) {
      assert k == 3 || (k == 4 && u[..4][..3] == u[..3] && 0x30 <= u[3] <= 0x39);
    }
    if |name| >= 3 {
      UpperSpellsAll(name);
      UpperEnds(name, 3);
      UpperEnds(name, 4);
      if Ends(name, 3) && DOT !in u[..3] {
        StemStops(u, 3);
      }
      if Ends(name, 4) && DOT !in u[..3] && u[3] != DOT {
        assert u[..4] == u[..3] + [u[3]];
        StemStops(u, 4);
        assert u[..4][..3] == u[..3];
      }
    }
  }

  // Null bytes and directories

  lemma {:induction false} StripApart(a: Bytes, b: Bytes)
    ensures StripNul(a + b) == StripNul(a) + StripNul(b)
  {
    if a == [] {
      assert a + b == b;
    } else {
      var first: Bytes := if a[0] == 0 then [] else [a[0]];
      StripApart(a[1..], b);
      assert (a + b)[0] == a[0] && (a + b)[1..] == a[1..] + b;
      assert first + (StripNul(a[1..]) + StripNul(b)) == first + StripNul(a[1..]) + StripNul(b);
    }
  }

  /** What comes after the first two stages sees no more of the name than they leave. */
  lemma SameBase(a: Bytes, b: Bytes)
    requires Base(StripNul(a)) == Base(StripNul(b))
    ensures Sanitized(a) == Sanitized(b)
  {
    hide Base, StripNul, MapRunes, TrimLeft, TrimRight, Undash, Unreserve;
  }

  /** A null byte makes no difference, wherever it stands. */
  lemma NulMakesNoDifference(a: Bytes, b: Bytes)
    ensures Sanitized(a + [0] + b) == Sanitized(a + b)
  {
    hide Sanitized;
    StripApart(a + [0], b);
    StripApart(a, [0]);
    StripApart(a, b);
    assert StripNul([0]) == [];
    assert StripNul(a) + [] == StripNul(a);
    SameBase(a + [0] + b, a + b);
  }

  lemma {:induction false} SlashesTrimmed(s: Bytes, after: Bytes)
    requires AllSlashes(after)
    ensures TrimSlashes(s + after) == TrimSlashes(s)
    decreases |after|
  {
    if after == [] {
      assert s + after == s;
    } else {
      var front := after[..|after| - 1];
      SlashesTrimmed(s, front);
      assert (s + after)[..|s + after| - 1] == s + front;
    }
  }

  lemma {:induction false} LastComponent(dir: Bytes, name: Bytes)
    requires SLASH !in name && (dir == [] || dir[|dir| - 1] == SLASH)
    ensures AfterSlash(dir + name) == name
    decreases |name|
  {
    if name == [] {
      assert dir + name == dir;
    } else {
      var n := |name| - 1;
      assert name == name[..n] + [name[n]];
      assert (dir + name)[..|dir + name| - 1] == dir + name[..n];
      LastComponent(dir, name[..n]);
    }
  }

  /** Neither do the directories in front of a name, nor slashes behind it. */
  lemma DirectoriesMakeNoDifference(dir: Bytes, name: Bytes, after: Bytes)
    requires 0 !in dir + name + after
    requires name != [] && SLASH !in name && AllSlashes(after)
    requires dir == [] || dir[|dir| - 1] == SLASH
    ensures Sanitized(dir + name + after) == Sanitized(name)
  {
    hide Sanitized;
    var path := dir + name + after;
    KeepsWithoutNul(path);
    assert forall b :: b in name ==> b in path;
    KeepsWithoutNul(name);
    SlashesTrimmed(dir + name, after);
    assert (dir + name)[|dir + name| - 1] in name;
    LastComponent(dir, name);
    KeepsWithoutSlash(name);
    assert Base(path) == name == Base(name);
    SameBase(path, name);
  }

  // What happens to one component

  predicate AllTrimmable(s: Bytes) {
    forall i :: 0 <= i < |s| ==> s[i] == 0x2E || s[i] == 0x20
  }

  lemma {:induction false} TrimLeftGives(lead: Bytes, rest: Bytes)
    requires AllTrimmable(lead) && (rest == [] || rest[0] !in {0x2E, 0x20})
    ensures TrimLeft(lead + rest) == rest
    decreases |lead|
  {
    if lead == [] {
      assert lead + rest == rest;
    } else {
      assert (lead + rest)[1..] == lead[1..] + rest;
      TrimLeftGives(lead[1..], rest);
    }
  }

  lemma {:induction false} TrimRightGives(core: Bytes, trail: Bytes)
    requires AllTrimmable(trail) && (core == [] || core[|core| - 1] !in {0x2E, 0x20})
    ensures TrimRight(core + trail) == core
    decreases |trail|
  {
    if trail == [] {
      assert core + trail == core;
    } else {
      assert (core + trail)[..|core + trail| - 1] == core + trail[..|trail| - 1];
      TrimRightGives(core, trail[..|trail| - 1]);
    }
  }

  lemma OneComponent(name: Bytes)
    requires name != [] && 0 !in name && SLASH !in name
    ensures Base(StripNul(name)) == name
  {
    KeepsWithoutNul(name);
    KeepsWithoutSlash(name);
  }

  lemma NoNameIsDot()
    ensures MapRunes(Base(StripNul([]))) == [DOT]
  {
    hide MapRunes;
    PlainIsProper([DOT]);
    MapKeepsProper([DOT]);
  }

  /** A component of which nothing but dots and spaces is left, and no name at all. */
  lemma NothingIsLeft(name: Bytes)
    requires 0 !in name && SLASH !in name && AllTrimmable(MapRunes(name))
    ensures Sanitized(name) == Ascii("file")
  {
    hide MapRunes, StripNul, Base;
    if name != [] {
      OneComponent(name);
      var mapped := MapRunes(name);
      assert mapped + [] == mapped;
      TrimLeftGives(mapped, []);
    } else {
      NoNameIsDot();
    }
    assert Named(name) == Ascii("file");
  }

  /** Only slashes: the root, whose one character is replaced. */
  lemma OnlySlashes(s: Bytes)
    requires s != [] && AllSlashes(s)
    ensures Sanitized(s) == [UNDERSCORE]
  {
    assert 0 !in s;
    KeepsWithoutNul(s);
    SlashesTrimmed([], s);
    assert [] + s == s;
    assert Base(s) == [SLASH];
    assert Decode([SLASH]) == Decoded(SLASH, 1) && [SLASH][1..] == [];
    assert MapRunes([SLASH]) == [UNDERSCORE] + [] == [UNDERSCORE];
    assert TrimRight(TrimLeft([UNDERSCORE])) == [UNDERSCORE] == Undash([UNDERSCORE]);
    ReservedExactlyWhen([UNDERSCORE]);
    assert Named(s) == [UNDERSCORE];
  }

  /** The middle part, once its leading dash is replaced and a device name is marked. */
  function Marked(core: Bytes): Bytes
    requires core != []
  {
    var name := if core[0] == 0x2D then [0x5F] + core[1..] else core;
    if SpellsDevice(name) then [0x5F] + name else name
  }

  /**
   Any other component: the dots and spaces around what is left of it go, a leading dash is
   replaced, a device name is marked, and then only what passes byte 255 is cut off.
   */
  lemma NameExactly(name: Bytes, lead: Bytes, core: Bytes, trail: Bytes)
    requires 0 !in name && SLASH !in name
    requires MapRunes(name) == lead + core + trail && AllTrimmable(lead) && AllTrimmable(trail)
    requires core != [] && core[0] !in {0x2E, 0x20} && core[|core| - 1] !in {0x2E, 0x20}
    ensures Valid(Marked(core))
    ensures Sanitized(name) == if |Marked(core)| <= 255 then Marked(core) else LongestPrefix(Marked(core), 255)
  {
    hide MapRunes, Reserved, SpellsDevice;
    var mapped := MapRunes(name);
    MappedIsNotEmpty(name, lead, core, trail);
    OneComponent(name);
    assert mapped == lead + (core + trail);
    assert (core + trail)[0] == core[0];
    TrimLeftGives(lead, core + trail);
    TrimRightGives(core, trail);
    CoreIsNoDots(mapped, lead, core, trail);
    ReservedExactlyWhen(Undash(core));
    assert Named(name) == Marked(core);
    NamedIsGood(name);
    ProperIsValid(Named(name));
  }

  lemma MappedIsNotEmpty(name: Bytes, lead: Bytes, core: Bytes, trail: Bytes)
    requires MapRunes(name) == lead + core + trail && core != []
    ensures name != []
  {
    assert (lead + core + trail)[|lead|] == core[0];
  }

  lemma CoreIsNoDots(mapped: Bytes, lead: Bytes, core: Bytes, trail: Bytes)
    requires mapped == lead + core + trail && core != [] && core[0] !in {0x2E, 0x20}
    ensures mapped !in {[], [DOT], [DOT, DOT]}
  {
    assert mapped[|lead|] == core[0];
  }

  /** There always is such a middle part, unless nothing is left. */
  lemma {:induction false} HasCore(s: Bytes) returns (lead: Bytes, core: Bytes, trail: Bytes)
    requires !AllTrimmable(s)
    ensures s == lead + core + trail && AllTrimmable(lead) && AllTrimmable(trail)
    ensures core != [] && core[0] !in {0x2E, 0x20} && core[|core| - 1] !in {0x2E, 0x20}
    decreases |s|
  {
    var n := |s| - 1;
    assert s == [s[0]] + s[1..];
    if s[0] in {0x2E, 0x20} {
      var k :| 0 <= k < |s| && s[k] != 0x2E && s[k] != 0x20;
      assert s[1..][k - 1] == s[k];
      lead, core, trail := HasCore(s[1..]);
      lead := [s[0]] + lead;
    } else if s[n] in {0x2E, 0x20} {
      assert s == s[..n] + [s[n]];
      lead, core, trail := HasCore(s[..n]);
      trail := trail + [s[n]];
    } else {
      lead, core, trail := [], s, [];
    }
  }

  /**
   A component with nothing to trim, replace at the front, mark or cut off: its characters stay one
   by one, the dangerous ones as underscores.
   */
  lemma CharactersStay(name: Bytes)
    requires 0 !in name && SLASH !in name
    requires var m := MapRunes(name);
             GoodStart(m) && GoodEnd(m) && !SpellsDevice(m) && |m| <= 255
    ensures Valid(Sanitized(name))
    ensures |Runes(Sanitized(name))| == |Runes(name)|
    ensures forall i :: 0 <= i < |Runes(name)| ==>
              Runes(Sanitized(name))[i] == if Dangerous(Runes(name)[i]) then 0x5F else Runes(name)[i]
  {
    hide MapRunes, SpellsDevice;
    var m := MapRunes(name);
    assert [] + m + [] == m;
    NameExactly(name, [], m, []);
    MapRunewise(name);
  }

  /** The bound is 255 bytes, and at most three more go so that no code point is cut in two. */
  lemma SanitizedExactly(filename: Bytes)
    ensures |Named(filename)| <= 255 ==> Sanitized(filename) == Named(filename)
    ensures |Named(filename)| > 255 ==>
              && Valid(Named(filename))
              && Sanitized(filename) == LongestPrefix(Named(filename), 255)
              && 252 <= |Sanitized(filename)| <= 255
  {
    NamedIsGood(filename);
    ProperIsValid(Named(filename));
    LongestPrefixFits(Named(filename), 255);
  }
}
