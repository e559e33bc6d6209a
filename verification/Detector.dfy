/** File type detection by magic bytes, internal/validator/validator.go. */
module Detector {
  import opened Utf8
  import opened Wrappers

  datatype FileType =
    | JPEG | PNG | WEBP | HEIC | BMP | TIFF | PDF
    | MP4 | MOV | MKV | AVI
    | MP3 | WAV | FLAC | M4A

  const ALL_TYPES: set<FileType> :=
    {JPEG, PNG, WEBP, HEIC, BMP, TIFF, PDF, MP4, MOV, MKV, AVI, MP3, WAV, FLAC, M4A}

  datatype Pattern = Pattern(bytes: Bytes, offset: nat)

  /** The brand of a file type box. */
  function Brand(s: string): Pattern
    requires |s| == 4 && forall i :: 0 <= i < |s| ==> s[i] as int < 0x80
  {
    Pattern(Ascii("ftyp") + Ascii(s), 4)
  }

  /** The table. */
  function Patterns(t: FileType): seq<Pattern> {
    match t
    case JPEG => [Pattern([0xFF, 0xD8, 0xFF], 0)]
    case PNG => [Pattern([0x89, 0x50, 0x4E, 0x47, 0x0D, 0x0A, 0x1A, 0x0A], 0)]
    case WEBP => [Pattern(Ascii("RIFF"), 0)]
    case HEIC =>
      [Brand("heic"), Brand("mif1"), Brand("msf1"), Brand("heix"), Brand("hevc"),
       Brand("heim"), Brand("heis"), Brand("hevm"), Brand("hevs")]
    case BMP => [Pattern([0x42, 0x4D], 0)]
    case TIFF => [Pattern([0x49, 0x49, 0x2A, 0x00], 0), Pattern([0x4D, 0x4D, 0x00, 0x2A], 0)]
    case PDF => [Pattern(Ascii("%PDF"), 0)]
    case MP3 => [Pattern(Ascii("ID3"), 0), Pattern([0xFF, 0xFB], 0), Pattern([0xFF, 0xF3], 0), Pattern([0xFF, 0xF2], 0)]
    case FLAC => [Pattern(Ascii("fLaC"), 0)]
    case WAV => [Pattern(Ascii("RIFF"), 0)]
    case MP4 =>
      [Brand("isom"), Brand("iso2"), Brand("mp41"), Brand("mp42"), Brand("avc1"),
       Brand("dash"), Brand("MSNV")]
    case MOV => [Brand("qt  ")]
    case M4A => [Brand("M4A "), Brand("M4B ")]
    case MKV => [Pattern([0x1A, 0x45, 0xDF, 0xA3], 0)]
    case AVI => [Pattern(Ascii("RIFF"), 0)]
  }

  predicate HasPattern(h: Bytes, p: Pattern) {
    p.offset + |p.bytes| <= |h| && h[p.offset..p.offset + |p.bytes|] == p.bytes
  }

  predicate IsRiff(t: FileType) {
    t == WEBP || t == WAV || t == AVI
  }

  /** The RIFF subtype, if there is one to look at, must be the type's own. */
  predicate RiffAgrees(t: FileType, h: Bytes) {
    IsRiff(t) && |h| >= 12 ==>
      h[8..12] == Ascii(match t case WEBP => "WEBP" case WAV => "WAVE" case _ => "AVI ")
  }

  function BigEndian32(b: Bytes): int
    requires |b| == 4
  {
    b[0] as int * 0x1000000 + b[1] as int * 0x10000 + b[2] as int * 0x100 + b[3] as int
  }

  /** validateStructure. */
  predicate ValidStructure(t: FileType, h: Bytes) {
    match t
    case JPEG => |h| >= 4 && (0xC0 <= h[3] <= 0xCF || 0xDB <= h[3] <= 0xFE)
    case PNG => |h| >= 16 && h[12..16] == Ascii("IHDR")
    case BMP => |h| >= 10 && h[6] == 0 && h[7] == 0 && h[8] == 0 && h[9] == 0
    case MP3 =>
      || (|h| >= 3 && h[0..3] == Ascii("ID3"))
      || (|h| >= 4 &&
          h[1] / 8 % 4 != 1 &&     // MPEG version
          h[1] / 2 % 4 != 0 &&     // layer
          h[2] / 16 % 16 != 15 &&  // bit rate
          h[2] / 4 % 4 != 3)       // sample rate
    case MP4 | MOV | M4A | HEIC => |h| >= 12 && 8 <= BigEndian32(h[0..4]) <= 1024
    case WAV | WEBP | AVI => |h| >= 12 && h[4..8] != [0, 0, 0, 0] && h[4..8] != [0xFF, 0xFF, 0xFF, 0xFF]
    case _ => true
  }

  /** The i-th pattern of t passes all three tests. */
  predicate Accepts(t: FileType, h: Bytes, i: nat)
    requires i < |Patterns(t)|
  {
    HasPattern(h, Patterns(t)[i]) && RiffAgrees(t, h) && ValidStructure(t, h)
  }

  predicate Matches(t: FileType, h: Bytes) {
    exists i :: 0 <= i < |Patterns(t)| && Accepts(t, h, i)
  }

  // Which type a header can be

  /** From its first bytes and its brand, without the table: the only type a header could be. */
  function Candidate(h: Bytes): Option<FileType> {
    if |h| < 2 then None
    else if h[0] == 0xFF then (if h[1] == 0xD8 then Some(JPEG) else Some(MP3))
    else if h[0] == 0x89 then Some(PNG)
    else if h[0] == 0x42 then Some(BMP)
    else if h[0] == 0x4D then Some(TIFF)
    else if h[0] == 0x49 then (if h[1] == 0x49 then Some(TIFF) else Some(MP3))
    else if h[0] == 0x25 then Some(PDF)
    else if h[0] == 0x66 then Some(FLAC)
    else if h[0] == 0x1A then Some(MKV)
    else if |h| < 12 then None
    else if h[0] == 0x52 then RiffCandidate(h[8..12])
    else Some(BrandCandidate(h[8..12]))
  }

  function RiffCandidate(subtype: Bytes): Option<FileType> {
    if subtype == Ascii("WEBP") then Some(WEBP)
    else if subtype == Ascii("WAVE") then Some(WAV)
    else if subtype == Ascii("AVI ") then Some(AVI)
    else None
  }

  function BrandCandidate(brand: Bytes): FileType
    requires |brand| == 4
  {
    if brand[0] == 0x71 then MOV
    else if brand[0] == 0x4D && brand[1] == 0x34 then M4A
    else if brand[0] == 0x68 || (brand[0] == 0x6D && brand[1] != 0x70) then HEIC
    else MP4
  }

  lemma PatternBytes(h: Bytes, p: Pattern, i: nat)
    requires HasPattern(h, p) && i < |p.bytes|
    ensures h[p.offset + i] == p.bytes[i]
  {
    assert h[p.offset..p.offset + |p.bytes|][i] == h[p.offset + i];
  }

  lemma BrandedIsCandidate(t: FileType, h: Bytes, i: nat)
    requires t == MP4 || t == MOV || t == M4A || t == HEIC
    requires i < |Patterns(t)| && HasPattern(h, Patterns(t)[i]) && ValidStructure(t, h)
    ensures Candidate(h) == Some(t)
  {
    var bytes := Patterns(t)[i].bytes;
    assert Patterns(t)[i].offset == 4 && |bytes| == 8;
    PatternBytes(h, Patterns(t)[i], 4);
    PatternBytes(h, Patterns(t)[i], 5);
    assert h[8] == bytes[4] && h[9] == bytes[5];
    assert h[0..4][0] == h[0];
    assert h[8..12][0] == h[8] && h[8..12][1] == h[9];
  }

  lemma OthersAreCandidates(t: FileType, h: Bytes, i: nat)
    requires !(t == MP4 || t == MOV || t == M4A || t == HEIC)
    requires i < |Patterns(t)| && HasPattern(h, Patterns(t)[i]) && RiffAgrees(t, h) && ValidStructure(t, h)
    ensures Candidate(h) == Some(t)
  {
    assert Patterns(t)[i].offset == 0;
    PatternBytes(h, Patterns(t)[i], 0);
    PatternBytes(h, Patterns(t)[i], 1);
    if IsRiff(t) {
      assert Ascii("WEBP")[1] == 0x45 && Ascii("WAVE")[1] == 0x41 && Ascii("AVI ")[1] == 0x56;
    }
  }

  /** A header passes for at most one type: the candidate. */
  lemma MatchIsCandidate(t: FileType, h: Bytes)
    requires Matches(t, h)
    ensures Candidate(h) == Some(t)
  {
    var i :| 0 <= i < |Patterns(t)| && Accepts(t, h, i);
    if t == MP4 || t == MOV || t == M4A || t == HEIC {
      BrandedIsCandidate(t, h, i);
    } else {
      OthersAreCandidates(t, h, i);
    }
  }

  lemma AtMostOneType(a: FileType, b: FileType, h: Bytes)
    requires Matches(a, h) && Matches(b, h)
    ensures a == b
  {
    MatchIsCandidate(a, h);
    MatchIsCandidate(b, h);
  }

  /** The answer, as a function of the header. */
  function Detected(h: Bytes): Option<FileType> {
    var c := Candidate(h);
    if c.Some? && Matches(c.value, h) then c else None
  }

  // The bytes of each type

  lemma DetectedIsMatch(t: FileType, h: Bytes)
    ensures Detected(h) == Some(t) <==> Matches(t, h)
  {
    if Matches(t, h) {
      MatchIsCandidate(t, h);
    }
  }

  lemma OnePattern(t: FileType, h: Bytes)
    requires |Patterns(t)| == 1
    ensures Detected(h) == Some(t) <==> Accepts(t, h, 0)
  {
    DetectedIsMatch(t, h);
  }

  lemma AtFront(h: Bytes, bytes: Bytes)
    ensures HasPattern(h, Pattern(bytes, 0)) <==> bytes <= h
  {
  }

  lemma JpegExactlyWhen(h: Bytes)
    ensures Detected(h) == Some(JPEG) <==>
              && [0xFF, 0xD8, 0xFF] <= h && |h| >= 4
              && (0xC0 <= h[3] <= 0xCF || 0xDB <= h[3] <= 0xFE)
  {
    hide Detected, HasPattern;
    OnePattern(JPEG, h);
    AtFront(h, [0xFF, 0xD8, 0xFF]);
  }

  lemma PngExactlyWhen(h: Bytes)
    ensures Detected(h) == Some(PNG) <==>
              && [0x89, 0x50, 0x4E, 0x47, 0x0D, 0x0A, 0x1A, 0x0A] <= h && |h| >= 16
              && h[12..16] == [0x49, 0x48, 0x44, 0x52]
  {
    hide Detected, HasPattern;
    OnePattern(PNG, h);
    AtFront(h, [0x89, 0x50, 0x4E, 0x47, 0x0D, 0x0A, 0x1A, 0x0A]);
  }

  lemma BmpExactlyWhen(h: Bytes)
    ensures Detected(h) == Some(BMP) <==> [0x42, 0x4D] <= h && |h| >= 10 && h[6..10] == [0, 0, 0, 0]
  {
    hide Detected, HasPattern;
    OnePattern(BMP, h);
    AtFront(h, [0x42, 0x4D]);
  }

  lemma TiffExactlyWhen(h: Bytes)
    ensures Detected(h) == Some(TIFF) <==> [0x49, 0x49, 0x2A, 0x00] <= h || [0x4D, 0x4D, 0x00, 0x2A] <= h
  {
    hide Detected, HasPattern;
    DetectedIsMatch(TIFF, h);
    AtFront(h, [0x49, 0x49, 0x2A, 0x00]);
    AtFront(h, [0x4D, 0x4D, 0x00, 0x2A]);
    assert Matches(TIFF, h) <==> Accepts(TIFF, h, 0) || Accepts(TIFF, h, 1);
  }

  lemma SignaturesExactlyWhen(h: Bytes)
    ensures Detected(h) == Some(PDF) <==> [0x25, 0x50, 0x44, 0x46] <= h
    ensures Detected(h) == Some(FLAC) <==> [0x66, 0x4C, 0x61, 0x43] <= h
    ensures Detected(h) == Some(MKV) <==> [0x1A, 0x45, 0xDF, 0xA3] <= h
  {
    hide Detected, HasPattern;
    OnePattern(PDF, h);
    OnePattern(FLAC, h);
    OnePattern(MKV, h);
    assert Ascii("%PDF") == [0x25, 0x50, 0x44, 0x46] && Ascii("fLaC") == [0x66, 0x4C, 0x61, 0x43];
    AtFront(h, [0x25, 0x50, 0x44, 0x46]);
    AtFront(h, [0x66, 0x4C, 0x61, 0x43]);
    AtFront(h, [0x1A, 0x45, 0xDF, 0xA3]);
  }

  /** A tag, or a frame header of layer 3 with a bit rate and a sample rate that exist. */
  lemma Mp3ExactlyWhen(h: Bytes)
    ensures Detected(h) == Some(MP3) <==>
              || [0x49, 0x44, 0x33] <= h
              || (|h| >= 4 && h[0] == 0xFF && h[1] in {0xFB, 0xF3, 0xF2} && h[2] < 0xF0 && h[2] / 4 % 4 != 3)
  {
    hide Detected, HasPattern;
    DetectedIsMatch(MP3, h);
    assert Ascii("ID3") == [0x49, 0x44, 0x33];
    AtFront(h, [0x49, 0x44, 0x33]);
    AtFront(h, [0xFF, 0xFB]);
    AtFront(h, [0xFF, 0xF3]);
    AtFront(h, [0xFF, 0xF2]);
    FourPatterns(MP3, h);
  }

  lemma FourPatterns(t: FileType, h: Bytes)
    requires |Patterns(t)| == 4
    ensures Matches(t, h) <==> Accepts(t, h, 0) || Accepts(t, h, 1) || Accepts(t, h, 2) || Accepts(t, h, 3)
  {
    hide Patterns, Accepts;
  }

  lemma RiffExactlyWhen(h: Bytes, t: FileType, subtype: Bytes)
    requires (t, subtype) in {(WEBP, Ascii("WEBP")), (WAV, Ascii("WAVE")), (AVI, Ascii("AVI "))}
    ensures Detected(h) == Some(t) <==>
              && [0x52, 0x49, 0x46, 0x46] <= h && |h| >= 12 && h[8..12] == subtype
              && h[4..8] != [0, 0, 0, 0] && h[4..8] != [0xFF, 0xFF, 0xFF, 0xFF]
  {
    hide Detected, HasPattern;
    OnePattern(t, h);
    assert Ascii("RIFF") == [0x52, 0x49, 0x46, 0x46];
    AtFront(h, [0x52, 0x49, 0x46, 0x46]);
  }

  /** The brands of the types in an ISO media file. */
  function Brands(t: FileType): set<Bytes> {
    match t
    case HEIC =>
      {Ascii("heic"), Ascii("mif1"), Ascii("msf1"), Ascii("heix"), Ascii("hevc"), Ascii("heim"), Ascii("heis"),
       Ascii("hevm"), Ascii("hevs")}
    case MP4 =>
      {Ascii("isom"), Ascii("iso2"), Ascii("mp41"), Ascii("mp42"), Ascii("avc1"), Ascii("dash"), Ascii("MSNV")}
    case MOV => {Ascii("qt  ")}
    case M4A => {Ascii("M4A "), Ascii("M4B ")}
    case _ => {}
  }

  /** A file type box of 8 to 1024 bytes with one of the type's brands. */
  lemma BrandedExactlyWhen(h: Bytes, t: FileType)
    requires t in {HEIC, MP4, MOV, M4A}
    ensures Detected(h) == Some(t) <==>
              && |h| >= 12 && h[0] == 0 && h[1] == 0 && 8 <= h[2] as int * 256 + h[3] as int <= 1024
              && h[4..8] == [0x66, 0x74, 0x79, 0x70] && h[8..12] in Brands(t)
  {
    hide Detected, HasPattern, Patterns, Brands;
    DetectedIsMatch(t, h);
    if |h| >= 12 {
      PatternIsBrand(h, t);
      BoxSize(h[0], h[1], h[2], h[3]);
      assert h[0..4] == [h[0], h[1], h[2], h[3]];
      if i :| 0 <= i < |Patterns(t)| && HasPattern(h, Patterns(t)[i]) {
        assert ValidStructure(t, h) ==> Accepts(t, h, i);
      }
    }
  }

  lemma BoxSize(a: Byte, b: Byte, c: Byte, d: Byte)
    ensures 8 <= BigEndian32([a, b, c, d]) <= 1024 <==> a == 0 && b == 0 && 8 <= c as int * 256 + d as int <= 1024
  {
  }

  lemma IsBrand(h: Bytes, s: string)
    requires |h| >= 12 && |s| == 4 && forall i :: 0 <= i < |s| ==> s[i] as int < 0x80
    ensures HasPattern(h, Brand(s)) <==> h[4..8] == [0x66, 0x74, 0x79, 0x70] && h[8..12] == Ascii(s)
  {
    var ftyp := Ascii("ftyp");
    assert ftyp == [0x66, 0x74, 0x79, 0x70];
    assert h[4..12] == h[4..8] + h[8..12];
    assert (ftyp + Ascii(s))[..4] == ftyp && (ftyp + Ascii(s))[4..] == Ascii(s);
    assert h[4..12][..4] == h[4..8] && h[4..12][4..] == h[8..12];
  }

  lemma HeicBrands(h: Bytes)
    requires |h| >= 12
    ensures (exists i :: 0 <= i < |Patterns(HEIC)| && HasPattern(h, Patterns(HEIC)[i])) <==>
              h[4..8] == [0x66, 0x74, 0x79, 0x70] && h[8..12] in Brands(HEIC)
  {
    hide HasPattern, Ascii, Brand;
    var p := Patterns(HEIC);
    assert
      && p[0] == Brand("heic") && p[1] == Brand("mif1") && p[2] == Brand("msf1") && p[3] == Brand("heix")
      && p[4] == Brand("hevc") && p[5] == Brand("heim") && p[6] == Brand("heis") && p[7] == Brand("hevm")
      && p[8] == Brand("hevs");
    IsBrand(h, "heic");
    IsBrand(h, "mif1");
    IsBrand(h, "msf1");
    IsBrand(h, "heix");
    IsBrand(h, "hevc");
    IsBrand(h, "heim");
    IsBrand(h, "heis");
    IsBrand(h, "hevm");
    IsBrand(h, "hevs");
  }

  lemma Mp4Brands(h: Bytes)
    requires |h| >= 12
    ensures (exists i :: 0 <= i < |Patterns(MP4)| && HasPattern(h, Patterns(MP4)[i])) <==>
              h[4..8] == [0x66, 0x74, 0x79, 0x70] && h[8..12] in Brands(MP4)
  {
    hide HasPattern, Ascii, Brand;
    var p := Patterns(MP4);
    assert
      && p[0] == Brand("isom") && p[1] == Brand("iso2") && p[2] == Brand("mp41") && p[3] == Brand("mp42")
      && p[4] == Brand("avc1") && p[5] == Brand("dash") && p[6] == Brand("MSNV");
    IsBrand(h, "isom");
    IsBrand(h, "iso2");
    IsBrand(h, "mp41");
    IsBrand(h, "mp42");
    IsBrand(h, "avc1");
    IsBrand(h, "dash");
    IsBrand(h, "MSNV");
  }

  lemma MovBrands(h: Bytes)
    requires |h| >= 12
    ensures (exists i :: 0 <= i < |Patterns(MOV)| && HasPattern(h, Patterns(MOV)[i])) <==>
              h[4..8] == [0x66, 0x74, 0x79, 0x70] && h[8..12] in Brands(MOV)
  {
    hide HasPattern, Ascii, Brand;
    var p := Patterns(MOV);
    assert p[0] == Brand("qt  ");
    IsBrand(h, "qt  ");
  }

  lemma M4aBrands(h: Bytes)
    requires |h| >= 12
    ensures (exists i :: 0 <= i < |Patterns(M4A)| && HasPattern(h, Patterns(M4A)[i])) <==>
              h[4..8] == [0x66, 0x74, 0x79, 0x70] && h[8..12] in Brands(M4A)
  {
    hide HasPattern, Ascii, Brand;
    var p := Patterns(M4A);
    assert p[0] == Brand("M4A ") && p[1] == Brand("M4B ");
    IsBrand(h, "M4A ");
    IsBrand(h, "M4B ");
  }

  lemma PatternIsBrand(h: Bytes, t: FileType)
    requires |h| >= 12 && t in {HEIC, MP4, MOV, M4A}
    ensures (exists i :: 0 <= i < |Patterns(t)| && HasPattern(h, Patterns(t)[i])) <==>
              h[4..8] == [0x66, 0x74, 0x79, 0x70] && h[8..12] in Brands(t)
  {
    hide HasPattern, Patterns, Brands;
    match t
    case HEIC => HeicBrands(h);
    case MP4 => Mp4Brands(h);
    case MOV => MovBrands(h);
    case M4A => M4aBrands(h);
  }

  /** The inner loop: one entry of the table. */
  method MatchesType(t: FileType, header: Bytes) returns (r: bool)
    ensures r <==> Matches(t, header)
  {
    hide HasPattern, RiffAgrees, ValidStructure;
    var patterns := Patterns(t);
    for i := 0 to |patterns|
      invariant forall j :: 0 <= j < i ==> !Accepts(t, header, j)
    {
      if HasPattern(header, patterns[i]) {
        if !RiffAgrees(t, header) {
          continue;
        }
        if !ValidStructure(t, header) {
          continue;
        }
        assert Accepts(t, header, i);
        return true;
      }
    }
    return false;
  }

  lemma AllTypesListed()
    ensures forall t: FileType :: t in ALL_TYPES
  {
    forall t: FileType ensures t in ALL_TYPES {
      assert t.JPEG? || t.PNG? || t.WEBP? || t.HEIC? || t.BMP? || t.TIFF? || t.PDF? || t.MP4? || t.MOV? || t.MKV?
             || t.AVI? || t.MP3? || t.WAV? || t.FLAC? || t.M4A?;
    }
  }

  /**
   DetectFileType. The table is walked in any order, as Go walks maps; the answer is the same
   function of the header every time. `header` is what one Read of at most 32 bytes returned.
   */
  method DetectFileType(header: Bytes) returns (r: Option<FileType>)
    ensures r == Detected(header)
    ensures r.Some? ==> Matches(r.value, header)
    ensures r.None? ==> forall t :: !Matches(t, header)
  {
    hide Matches, Candidate;
    var todo := ALL_TYPES;
    AllTypesListed();
    while todo != {}
      invariant forall t :: t in todo || !Matches(t, header)
      decreases |todo|
    {
      var fileType :| fileType in todo;
      var matches := MatchesType(fileType, header);
      if matches {
        MatchIsCandidate(fileType, header);
        return Some(fileType);
      }
      todo := todo - {fileType};
    }
    return None;
  }
}
