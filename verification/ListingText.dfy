/** Listings as text: every line a field, and what the validator makes of all of them. */
module ListingText {
  import opened Int64
  import opened Listing
  import opened Paths
  import opened Text
  import opened Wrappers

  // The text of one line

  /** The white space of Unicode. */
  lemma SpaceExactlyWhen(c: char)
    ensures Space(c) <==>
              || c in {'\t', '\n', '\U{B}', '\U{C}', '\r', ' ', '\U{85}', '\U{A0}', '\U{1680}'}
              || c in {'\U{2000}', '\U{2001}', '\U{2002}', '\U{2003}', '\U{2004}', '\U{2005}'}
              || c in {'\U{2006}', '\U{2007}', '\U{2008}', '\U{2009}', '\U{200A}'}
              || c in {'\U{2028}', '\U{2029}', '\U{202F}', '\U{205F}', '\U{3000}'}
  {
  }

  predicate AllSpace(s: string) {
    forall i :: 0 <= i < |s| ==> Space(s[i])
  }

  lemma {:induction false} TrimStartGives(lead: string, rest: string)
    requires AllSpace(lead) && (rest == "" || !Space(rest[0]))
    ensures TrimStart(lead + rest) == rest
  {
    if lead == "" {
      assert lead + rest == rest;
    } else {
      assert (lead + rest)[1..] == lead[1..] + rest;
      TrimStartGives(lead[1..], rest);
    }
  }

  lemma {:induction false} TrimEndGives(core: string, trail: string)
    requires AllSpace(trail) && (core == "" || !Space(core[|core| - 1]))
    ensures TrimEnd(core + trail) == core
    decreases |trail|
  {
    if trail == "" {
      assert core + trail == core;
    } else {
      assert (core + trail)[..|core + trail| - 1] == core + trail[..|trail| - 1];
      TrimEndGives(core, trail[..|trail| - 1]);
    }
  }

  /** Trimming takes the white space around the text, a carriage return for one, and nothing else. */
  lemma TrimGives(lead: string, core: string, trail: string)
    requires AllSpace(lead) && AllSpace(trail)
    requires core != "" ==> !Space(core[0]) && !Space(core[|core| - 1])
    ensures TrimSpace(lead + core + trail) == core
  {
    if core == "" {
      assert lead + core + trail == (lead + trail) + "";
      TrimStartGives(lead + trail, "");
    } else {
      assert lead + core + trail == lead + (core + trail);
      TrimStartGives(lead, core + trail);
      TrimEndGives(core, trail);
    }
  }

  /** The sign of a directory is a D in front. */
  predicate DFirst(value: string) {
    exists k :: 0 <= k < |value| && value[k] == 'D' && forall j :: 0 <= j < k ==> Space(value[j])
  }

  lemma {:induction false} StartOf(value: string)
    ensures var t := TrimStart(value);
            DFirst(value) <==> t != "" && t[0] == 'D'
  {
    if value != "" && Space(value[0]) {
      var rest := value[1..];
      StartOf(rest);
      if k :| 0 <= k < |value| && value[k] == 'D' && forall j :: 0 <= j < k ==> Space(value[j]) {
        assert k > 0 && rest[k - 1] == 'D' && forall j :: 0 <= j < k - 1 ==> rest[j] == value[j + 1];
      }
      if k :| 0 <= k < |rest| && rest[k] == 'D' && forall j :: 0 <= j < k ==> Space(rest[j]) {
        assert value[k + 1] == 'D' && forall j :: 1 <= j < k + 1 ==> value[j] == rest[j - 1];
      }
    } else if value != "" && value[0] == 'D' {
      assert DFirst(value);
    }
  }

  lemma {:induction false} EndKeepsStart(s: string)
    requires s == "" || !Space(s[0])
    ensures var t := TrimEnd(s);
            (t == "" <==> s == "") && (t != "" ==> t[0] == s[0])
  {
    if s != "" && Space(s[|s| - 1]) {
      EndKeepsStart(s[..|s| - 1]);
    }
  }

  lemma {:induction false} TrimStartStops(s: string)
    ensures TrimStart(s) == "" || !Space(TrimStart(s)[0])
  {
    if s != "" && Space(s[0]) {
      TrimStartStops(s[1..]);
    }
  }

  lemma AttributesExactlyWhen(value: string)
    ensures AttributesIsDir(value) <==> DFirst(value)
  {
    StartOf(value);
    TrimStartStops(value);
    EndKeepsStart(TrimStart(value));
  }

  // Numbers

  function Decimal(n: nat): (s: string)
    ensures s != "" && AllDigits(s)
  {
    if n < 10 then [DigitChar(n)] else Decimal(n / 10) + [DigitChar(n % 10)]
  }

  function DigitChar(d: nat): (c: char)
    requires d < 10
    ensures Digit(c) && DigitValue(c) == d
  {
    '0' + d as char
  }

  function Zeros(k: nat): (s: string)
    ensures |s| == k && forall i :: 0 <= i < k ==> s[i] == '0'
  {
    seq(k, _ => '0')
  }

  lemma {:induction false} DecimalDigits(k: nat, n: nat)
    ensures Digits(Zeros(k) + Decimal(n)) == n
    decreases n, k
  {
    var s := Zeros(k) + Decimal(n);
    if n >= 10 {
      DecimalDigits(k, n / 10);
      assert s[..|s| - 1] == Zeros(k) + Decimal(n / 10);
    } else if k == 0 {
      assert s[..|s| - 1] == "" && s[|s| - 1] == DigitChar(n);
    } else {
      DecimalDigits(k - 1, 0);
      assert DigitChar(0) == '0';
      assert s[..|s| - 1] == Zeros(k - 1) + Decimal(0);
    }
  }

  lemma ParseDigits(s: string)
    requires s != "" && AllDigits(s)
    ensures var n: int := Digits(s);
            && ParseInt(s) == (if n <= 0x7fff_ffff_ffff_ffff then Some(n) else None)
            && ParseInt("+" + s) == (if n <= 0x7fff_ffff_ffff_ffff then Some(n) else None)
            && ParseInt("-" + s) == if n <= 0x8000_0000_0000_0000 then Some(-n) else None
  {
    hide Digits;
    assert Digit(s[0]);
    assert ("+" + s)[1..] == s && ("-" + s)[1..] == s;
  }

  /** Every number, under any sign and with any zeros in front, is read if it is an int64. */
  lemma ParseNumber(k: nat, n: nat)
    ensures var (s, m: int) := (Zeros(k) + Decimal(n), n);
            && ParseInt(s) == (if n <= 0x7fff_ffff_ffff_ffff then Some(m) else None)
            && ParseInt("+" + s) == ParseInt(s)
            && ParseInt("-" + s) == if n <= 0x8000_0000_0000_0000 then Some(-m) else None
  {
    hide Digits, ParseInt, Decimal, Zeros;
    DecimalDigits(k, n);
    ParseDigits(Zeros(k) + Decimal(n));
  }

  lemma {:induction false} DigitsAreDecimal(s: string) returns (k: nat)
    requires s != "" && AllDigits(s)
    ensures s == Zeros(k) + Decimal(Digits(s))
  {
    var front, last := s[..|s| - 1], s[|s| - 1];
    assert s == front + [last];
    assert [DigitChar(DigitValue(last))] == [last];
    if front == "" {
      k := 0;
    } else {
      k := DigitsAreDecimal(front);
      if Digits(front) == 0 {
        assert Decimal(0) == "0";
        k := k + 1;
        assert front == Zeros(k);
      } else {
        assert Digits(s) / 10 == Digits(front) && Digits(s) % 10 == DigitValue(last);
      }
    }
  }

  lemma ParsedHasDigits(s: string)
    requires ParseInt(s).Some?
    ensures s != ""
    ensures var digits := if s[0] == '-' || s[0] == '+' then s[1..] else s;
            digits != "" && AllDigits(digits)
  {
    hide AllDigits, Digits;
  }

  /** And nothing else is. */
  lemma ParsedIsNumber(s: string) returns (sign: string, k: nat, n: nat)
    requires ParseInt(s).Some?
    ensures sign in {"", "+", "-"} && s == sign + Zeros(k) + Decimal(n)
  {
    hide Digits, ParseInt, Decimal, Zeros;
    ParsedHasDigits(s);
    var digits := if s[0] == '-' || s[0] == '+' then s[1..] else s;
    sign := if s[0] == '-' then "-" else if s[0] == '+' then "+" else "";
    k := DigitsAreDecimal(digits);
    n := Digits(digits);
    var zeros, decimal := Zeros(k), Decimal(n);
    assert s == sign + digits == sign + (zeros + decimal);
    assert sign + (zeros + decimal) == sign + zeros + decimal;
  }

  // Lines and what they say

  /** A line that says something about an entry, other than its path. */
  datatype Field =
    | Size(value: string)
    | Folder(value: string)
    | Attributes(value: string)
    | Other(key: string, value: string)
    | Noise(text: string)

  /** How the lines of an entry end: with a blank line, with the path of the next, or in a new separator. */
  datatype Ending = Blank | Compact | Separator

  /** The lines of one entry. Some may come before its path, or it may have none. */
  datatype Piece = Piece(before: seq<Field>, path: Option<string>, after: seq<Field>, ending: Ending)

  const SEPARATOR: string := "----------"

  function Line(key: string, value: string): string {
    key + " = " + value
  }

  function FieldLine(f: Field): string {
    match f
    case Size(value) => Line("Size", value)
    case Folder(value) => Line("Folder", value)
    case Attributes(value) => Line("Attributes", value)
    case Other(key, value) => Line(key, value)
    case Noise(text) => text
  }

  function FieldLines(fs: seq<Field>): seq<string> {
    if fs == [] then [] else [FieldLine(fs[0])] + FieldLines(fs[1..])
  }

  function PieceLines(p: Piece): seq<string> {
    FieldLines(p.before)
    + (if p.path.Some? then [Line("Path", p.path.value)] else [])
    + FieldLines(p.after)
    + match p.ending
      case Blank => [""]
      case Compact => []
      case Separator => [SEPARATOR]
  }

  function BodyLines(ps: seq<Piece>): seq<string> {
    if ps == [] then [] else PieceLines(ps[0]) + BodyLines(ps[1..])
  }

  /** A value that survives being printed at the end of a line. */
  predicate Printable(value: string) {
    value != "" && !Space(value[|value| - 1])
  }

  /** A text without the sign between key and value. */
  predicate Unsplit(text: string) {
    forall i :: 0 <= i <= |text| ==> !(" = " <= text[i..])
  }

  predicate PrintableField(f: Field) {
    match f
    case Size(value) => Printable(value) && ParseInt(value).Some? && ParseInt(value).value >= 0
    case Folder(value) => Printable(value)
    case Attributes(value) => Printable(value)
    case Other(key, value) =>
      && Printable(value) && key != "" && !Space(key[0]) && '=' !in key
      && key !in {"Path", "Size", "Folder", "Attributes"}
    case Noise(text) => Printable(text) && !Space(text[0]) && text != SEPARATOR && Unsplit(text)
  }

  predicate PrintableFields(fs: seq<Field>) {
    forall i :: 0 <= i < |fs| ==> PrintableField(fs[i])
  }

  predicate PrintablePiece(p: Piece) {
    && PrintableFields(p.before) && PrintableFields(p.after)
    && (p.path.Some? ==> Printable(p.path.value))
    && (p.ending.Compact? ==> p.path.Some?)
  }

  /** After an entry without a blank line, the next one starts with its path. */
  predicate PrintablePieces(ps: seq<Piece>) {
    && (forall i :: 0 <= i < |ps| ==> PrintablePiece(ps[i]))
    && (forall i :: 0 <= i < |ps| - 1 && ps[i].ending.Compact? ==> ps[i + 1].before == [] && ps[i + 1].path.Some?)
  }

  // The records that are meant

  predicate Marks(f: Field) {
    (f.Folder? && f.value == "+") || (f.Attributes? && DFirst(f.value))
  }

  predicate Unmarks(f: Field) {
    f.Folder? && f.value != "+"
  }

  /** Some field says so, and none after it says otherwise. */
  predicate IsFolder(fs: seq<Field>) {
    exists i :: 0 <= i < |fs| && Marks(fs[i]) && forall j :: i < j < |fs| ==> !Unmarks(fs[j])
  }

  /** The last one counts. */
  function SizeIn(fs: seq<Field>): Option<int> {
    if fs == [] then None
    else if fs[|fs| - 1].Size? then ParseInt(fs[|fs| - 1].value)
    else SizeIn(fs[..|fs| - 1])
  }

  function RecordOf(p: Piece): Entry
    requires p.path.Some?
  {
    var fields := p.before + p.after;
    var size := SizeIn(fields);
    Entry(p.path.value, if size.Some? then size.value else 0, IsFolder(fields), true, size.Some?)
  }

  /** Entries with a path that a separator does not cut off. */
  function RecordsOf(ps: seq<Piece>): seq<Entry> {
    if ps == [] then []
    else (if ps[0].path.Some? && !ps[0].ending.Separator? then [RecordOf(ps[0])] else []) + RecordsOf(ps[1..])
  }

  // Reading them back

  lemma TrimKeeps(s: string)
    requires s != "" ==> !Space(s[0]) && !Space(s[|s| - 1])
    ensures TrimSpace(s) == s
  {
    TrimGives("", s, "");
    assert "" + s + "" == s;
  }

  lemma {:induction false} CutLine(key: string, value: string)
    requires '=' !in key
    ensures Cut(Line(key, value)) == Some((key, value))
  {
    var s := Line(key, value);
    if key == "" {
      assert s == " = " + value;
      assert s[3..] == value;
    } else {
      CutLine(key[1..], value);
      assert s[1..] == Line(key[1..], value);
      assert s[1] != '=' by {
        if |key| == 1 {
          assert s[1] == ' ';
        }
      }
      assert [s[0]] + key[1..] == key;
    }
  }

  lemma {:induction false} CutUnsplit(text: string)
    requires Unsplit(text)
    ensures Cut(text) == None
  {
    if text != "" {
      assert text[0..] == text;
      forall i | 0 <= i <= |text[1..]| ensures !(" = " <= text[1..][i..]) {
        assert text[1..][i..] == text[i + 1..];
      }
      CutUnsplit(text[1..]);
    }
  }

  /** A printed line is read back. */
  lemma LineIsRead(key: string, value: string)
    requires key != "" && !Space(key[0]) && '=' !in key && Printable(value)
    ensures TrimSpace(Line(key, value)) == Line(key, value)
    ensures Line(key, value) != "" && Line(key, value) != SEPARATOR
    ensures Cut(Line(key, value)) == Some((key, value))
  {
    var s := Line(key, value);
    assert s[0] == key[0] && s[|s| - 1] == value[|value| - 1];
    TrimKeeps(s);
    assert s[|key| + 1] == '=' && '=' !in SEPARATOR;
    CutLine(key, value);
  }

  /** What a field does to the entry it is about. */
  function With(e: Entry, f: Field): Entry {
    match f
    case Size(value) => if ParseInt(value).Some? then e.(size := ParseInt(value).value, hasSize := true) else e
    case Folder(value) => e.(isDir := value == "+")
    case Attributes(value) => if DFirst(value) then e.(isDir := true) else e
    case _ => e
  }

  function WithAll(e: Entry, fs: seq<Field>): Entry {
    if fs == [] then e else With(WithAll(e, fs[..|fs| - 1]), fs[|fs| - 1])
  }

  lemma FieldIsRead(e: Entry, f: Field, rest: seq<string>)
    requires PrintableField(f)
    ensures Records(e, true, [FieldLine(f)] + rest) == Records(With(e, f), true, rest)
  {
    hide TrimSpace, Cut, ParseInt, AttributesIsDir, DFirst, Unsplit;
    assert ([FieldLine(f)] + rest)[1..] == rest;
    match f
    case Size(value) => LineIsRead("Size", value);
    case Folder(value) => LineIsRead("Folder", value);
    case Attributes(value) =>
      LineIsRead("Attributes", value);
      AttributesExactlyWhen(value);
    case Other(key, value) => LineIsRead(key, value);
    case Noise(text) =>
      TrimKeeps(text);
      CutUnsplit(text);
  }

  lemma {:induction false} FieldsAreRead(e: Entry, fs: seq<Field>, rest: seq<string>)
    requires PrintableFields(fs)
    ensures Records(e, true, FieldLines(fs) + rest) == Records(WithAll(e, fs), true, rest)
    decreases |fs|
  {
    hide Records, FieldLine, With, PrintableField;
    if fs == [] {
      assert FieldLines(fs) + rest == rest;
    } else {
      var front, last := fs[..|fs| - 1], fs[|fs| - 1];
      LinesOfLast(fs);
      assert FieldLines(fs) + rest == FieldLines(front) + ([FieldLine(last)] + rest);
      FieldsAreRead(e, front, [FieldLine(last)] + rest);
      FieldIsRead(WithAll(e, front), last, rest);
    }
  }

  lemma {:induction false} LinesOfLast(fs: seq<Field>)
    requires fs != []
    ensures FieldLines(fs) == FieldLines(fs[..|fs| - 1]) + [FieldLine(fs[|fs| - 1])]
  {
    if |fs| > 1 {
      LinesOfLast(fs[1..]);
      assert fs[..|fs| - 1][1..] == fs[1..][..|fs| - 2];
    }
  }

  lemma IsFolderByLast(fs: seq<Field>)
    ensures IsFolder(fs) <==>
              && fs != []
              && var n := |fs| - 1;
                 Marks(fs[n]) || (IsFolder(fs[..n]) && !Unmarks(fs[n]))
  {
    if fs != [] {
      hide DFirst;
      var n := |fs| - 1;
      if IsFolder(fs[..n]) && !Unmarks(fs[n]) {
        var i :| 0 <= i < n && Marks(fs[..n][i]) && forall j :: i < j < n ==> !Unmarks(fs[..n][j]);
        assert Marks(fs[i]) && forall j :: i < j < |fs| ==> !Unmarks(fs[j]);
      }
      if IsFolder(fs) && !Marks(fs[n]) {
        var i :| 0 <= i < |fs| && Marks(fs[i]) && forall j :: i < j < |fs| ==> !Unmarks(fs[j]);
        assert Marks(fs[..n][i]) && forall j :: i < j < n ==> !Unmarks(fs[..n][j]);
      }
    }
  }

  /** The last size, and what the fields say about folders, is all that is left of them. */
  lemma {:induction false} WithAllMeans(e: Entry, fs: seq<Field>)
    requires PrintableFields(fs) && e == Entry(e.path, 0, false, e.hasPath, false)
    ensures var size := SizeIn(fs);
            WithAll(e, fs) == Entry(e.path, if size.Some? then size.value else 0, IsFolder(fs), e.hasPath, size.Some?)
  {
    hide ParseInt, DFirst, IsFolder;
    IsFolderByLast(fs);
    if fs != [] {
      WithAllMeans(e, fs[..|fs| - 1]);
      assert PrintableField(fs[|fs| - 1]);
    }
  }

  lemma {:induction false} WithAllAppend(e: Entry, fs: seq<Field>, gs: seq<Field>)
    ensures WithAll(e, fs + gs) == WithAll(WithAll(e, fs), gs)
    decreases |gs|
  {
    hide With;
    if gs == [] {
      assert fs + gs == fs;
    } else {
      assert (fs + gs)[..|fs + gs| - 1] == fs + gs[..|gs| - 1];
      WithAllAppend(e, fs, gs[..|gs| - 1]);
    }
  }

  function Named(e: Entry, path: string): Entry {
    e.(path := path, hasPath := true)
  }

  /** The path and the fields do not affect each other. */
  lemma {:induction false} NamedApart(e: Entry, fs: seq<Field>, path: string)
    ensures Named(WithAll(e, fs), path) == WithAll(Named(e, path), fs)
    ensures WithAll(e, fs).hasPath == e.hasPath
  {
    hide ParseInt, DFirst;
    if fs != [] {
      NamedApart(e, fs[..|fs| - 1], path);
    }
  }

  lemma PieceIsRecord(p: Piece)
    requires p.path.Some? && PrintablePiece(p)
    ensures WithAll(Named(WithAll(NO_ENTRY, p.before), p.path.value), p.after) == RecordOf(p)
  {
    hide WithAll, PrintableField, SizeIn, IsFolder;
    var e := Named(NO_ENTRY, p.path.value);
    NamedApart(NO_ENTRY, p.before, p.path.value);
    WithAllAppend(e, p.before, p.after);
    WithAllMeans(e, p.before + p.after);
  }

  lemma PathIsRead(e: Entry, path: string, rest: seq<string>)
    requires Printable(path)
    ensures Records(e, true, [Line("Path", path)] + rest) ==
              if e.hasPath then Prepend([e], Records(Named(NO_ENTRY, path), true, rest))
              else Records(Named(e, path), true, rest)
  {
    LineIsRead("Path", path);
    assert ([Line("Path", path)] + rest)[1..] == rest;
  }

  lemma BlankIsRead(e: Entry, rest: seq<string>)
    ensures Records(e, true, [""] + rest) == Prepend(Emit(e), Records(NO_ENTRY, true, rest))
  {
    TrimKeeps("");
    assert ([""] + rest)[1..] == rest;
  }

  lemma SeparatorIsRead(e: Entry, inEntries: bool, rest: seq<string>)
    ensures Records(e, inEntries, [SEPARATOR] + rest) == Records(NO_ENTRY, true, rest)
  {
    TrimKeeps(SEPARATOR);
    assert ([SEPARATOR] + rest)[1..] == rest;
  }

  /** What is complete when the lines of an entry end, and what is still open. */
  function Complete(p: Piece): seq<Entry> {
    if p.path.Some? && p.ending.Blank? then [RecordOf(p)] else []
  }

  function Open(p: Piece): Entry {
    if p.path.Some? && p.ending.Compact? then RecordOf(p) else NO_ENTRY
  }

  lemma EndIsRead(e: Entry, ending: Ending, rest: seq<string>)
    ensures var end := match ending case Blank => [""] case Compact => [] case Separator => [SEPARATOR];
            Records(e, true, end + rest) ==
              match ending
              case Blank => Prepend(Emit(e), Records(NO_ENTRY, true, rest))
              case Compact => Records(e, true, rest)
              case Separator => Records(NO_ENTRY, true, rest)
  {
    hide Records;
    match ending
    case Blank => BlankIsRead(e, rest);
    case Compact => assert [] + rest == rest;
    case Separator => SeparatorIsRead(e, true, rest);
  }

  lemma PrependTwice(xs: seq<Entry>, ys: seq<Entry>, rest: Option<seq<Entry>>)
    ensures Prepend(xs, Prepend(ys, rest)) == Prepend(xs + ys, rest)
    ensures Prepend([], rest) == rest
  {
    if rest.Some? {
      assert xs + (ys + rest.value) == xs + ys + rest.value;
      assert [] + rest.value == rest.value;
    }
  }

  function EndLines(p: Piece): seq<string> {
    match p.ending
    case Blank => [""]
    case Compact => []
    case Separator => [SEPARATOR]
  }

  /** From the path on, with what was said before. */
  lemma NamedTail(e: Entry, p: Piece, rest: seq<string>)
    requires PrintablePiece(p) && p.path.Some? && e == Named(WithAll(NO_ENTRY, p.before), p.path.value)
    ensures Records(e, true, FieldLines(p.after) + (EndLines(p) + rest)) ==
            Prepend(Complete(p), Records(Open(p), true, rest))
  {
    hide Records, FieldLines, PrintableField, SizeIn, IsFolder;
    FieldsAreRead(e, p.after, EndLines(p) + rest);
    PieceIsRecord(p);
    EndIsRead(RecordOf(p), p.ending, rest);
    PrependTwice([], [], Records(Open(p), true, rest));
  }

  lemma NamedIsRead(e: Entry, p: Piece, rest: seq<string>)
    requires PrintablePiece(p) && p.path.Some? && (e == NO_ENTRY || (e.hasPath && p.before == []))
    ensures Records(e, true, PieceLines(p) + rest) ==
            Prepend(Emit(e) + Complete(p), Records(Open(p), true, rest))
  {
    hide Records, FieldLines, PrintableField, RecordOf, Complete, Open;
    var path, tail := p.path.value, FieldLines(p.after) + (EndLines(p) + rest);
    var before := WithAll(e, p.before);
    assert PieceLines(p) + rest == FieldLines(p.before) + ([Line("Path", path)] + tail);
    FieldsAreRead(e, p.before, [Line("Path", path)] + tail);
    PathIsRead(before, path, tail);
    NamedApart(e, p.before, path);
    NamedTail(Named(WithAll(NO_ENTRY, p.before), path), p, rest);
    var left := Records(Open(p), true, rest);
    PrependTwice(Emit(e), Complete(p), left);
    if e.hasPath {
      assert before == e && WithAll(NO_ENTRY, p.before) == NO_ENTRY;
    } else {
      assert Emit(e) + Complete(p) == Complete(p);
    }
  }

  lemma NamelessIsRead(p: Piece, rest: seq<string>)
    requires PrintablePiece(p) && p.path.None?
    ensures Records(NO_ENTRY, true, PieceLines(p) + rest) == Records(NO_ENTRY, true, rest)
  {
    hide Records, FieldLines, PrintableField;
    var end := EndLines(p) + rest;
    var e := WithAll(NO_ENTRY, p.before);
    assert PieceLines(p) + rest == FieldLines(p.before) + (FieldLines(p.after) + end);
    FieldsAreRead(NO_ENTRY, p.before, FieldLines(p.after) + end);
    FieldsAreRead(e, p.after, end);
    NamedApart(NO_ENTRY, p.before, "");
    NamedApart(e, p.after, "");
    EndIsRead(WithAll(e, p.after), p.ending, rest);
    PrependTwice([], [], Records(NO_ENTRY, true, rest));
  }

  /** The lines of one entry, read while e is open. */
  lemma PieceIsRead(e: Entry, p: Piece, rest: seq<string>)
    requires PrintablePiece(p) && (e == NO_ENTRY || (e.hasPath && p.before == [] && p.path.Some?))
    ensures Records(e, true, PieceLines(p) + rest) ==
            Prepend(Emit(e) + Complete(p), Records(Open(p), true, rest))
  {
    hide Records, PieceLines, PrintablePiece, RecordOf;
    if p.path.Some? {
      NamedIsRead(e, p, rest);
    } else {
      NamelessIsRead(p, rest);
      PrependTwice([], [], Records(NO_ENTRY, true, rest));
    }
  }

  lemma RestIsPrintable(ps: seq<Piece>)
    requires PrintablePieces(ps) && ps != []
    ensures PrintablePiece(ps[0]) && PrintablePieces(ps[1..])
    ensures Open(ps[0]) == NO_ENTRY
            || (Open(ps[0]).hasPath && (|ps| > 1 ==> ps[1].before == [] && ps[1].path.Some?))
  {
    hide PrintableFields, Printable;
    var rest := ps[1..];
    assert forall i :: 0 <= i < |rest| ==> rest[i] == ps[i + 1];
  }

  lemma RecordsOfFirst(ps: seq<Piece>)
    requires ps != []
    ensures RecordsOf(ps) == Complete(ps[0]) + Emit(Open(ps[0])) + RecordsOf(ps[1..])
  {
    hide RecordOf;
    CompleteOrOpen(ps[0]);
  }

  lemma CompleteOrOpen(p: Piece)
    ensures Complete(p) + Emit(Open(p)) == if p.path.Some? && !p.ending.Separator? then [RecordOf(p)] else []
  {
    hide RecordOf;
    if p.path.Some? {
      RecordHasPath(p);
    }
  }

  lemma RecordHasPath(p: Piece)
    requires p.path.Some?
    ensures RecordOf(p).hasPath
  {
    hide SizeIn, IsFolder;
  }

  lemma NothingIsRead(e: Entry)
    ensures Records(e, true, []) == Some(Emit(e))
  {
  }

  /** The pieces from here on, read while e is open, which the first of them must then close with its path. */
  lemma {:induction false} BodyIsRead(e: Entry, ps: seq<Piece>)
    requires PrintablePieces(ps)
    requires e == NO_ENTRY || (e.hasPath && (ps != [] ==> ps[0].before == [] && ps[0].path.Some?))
    ensures Records(e, true, BodyLines(ps)) == Some(Emit(e) + RecordsOf(ps))
    decreases |ps|
  {
    hide Records, PieceLines, PrintablePieces, PrintablePiece, Complete, Open, Emit;
    if ps == [] {
      NothingIsRead(e);
      assert Emit(e) + RecordsOf([]) == Emit(e);
    } else {
      var p, rest := ps[0], ps[1..];
      RestIsPrintable(ps);
      PieceIsRead(e, p, BodyLines(rest));
      BodyIsRead(Open(p), rest);
      RecordsOfFirst(ps);
      Regroup(Emit(e), Complete(p), Emit(Open(p)), RecordsOf(rest));
    }
  }

  lemma Regroup<T>(a: seq<T>, b: seq<T>, c: seq<T>, d: seq<T>)
    ensures (a + b) + (c + d) == a + (b + c + d)
  {
  }

  // Whole texts

  predicate NoSeparator(lines: seq<string>) {
    forall i :: 0 <= i < |lines| ==> TrimSpace(lines[i]) != SEPARATOR
  }

  lemma {:induction false} HeaderIsSkipped(header: seq<string>, body: seq<string>)
    requires NoSeparator(header)
    ensures Records(NO_ENTRY, false, header + [SEPARATOR] + body) == Records(NO_ENTRY, true, body)
  {
    var lines := header + [SEPARATOR] + body;
    if header == [] {
      assert lines == [SEPARATOR] + body;
      SeparatorIsRead(NO_ENTRY, false, body);
    } else {
      HeaderIsSkipped(header[1..], body);
      assert lines[1..] == header[1..] + [SEPARATOR] + body;
    }
  }

  /** The same lines, whatever white space is around them. */
  predicate SameText(a: seq<string>, b: seq<string>) {
    |a| == |b| && forall i :: 0 <= i < |a| ==> TrimSpace(a[i]) == TrimSpace(b[i])
  }

  lemma {:induction false} PaddingIsIgnored(e: Entry, inEntries: bool, a: seq<string>, b: seq<string>)
    requires SameText(a, b)
    ensures Records(e, inEntries, a) == Records(e, inEntries, b)
    decreases |a|
  {
    hide TrimSpace, Cut, SetField;
    if a != [] {
      assert SameText(a[1..], b[1..]);
      forall x, y { PaddingIsIgnored(x, y, a[1..], b[1..]); }
    }
  }

  /** The listing after any header, as lines. */
  function Printed(header: seq<string>, ps: seq<Piece>): seq<string> {
    header + [SEPARATOR] + BodyLines(ps)
  }

  /** A text whose lines are these, white space around them aside. */
  predicate Shows(text: string, header: seq<string>, ps: seq<Piece>) {
    NoSeparator(header) && PrintablePieces(ps) && SameText(SplitOn(text, '\n'), Printed(header, ps))
  }

  /** Parsing a printed listing gives back its records: fields in any order and number, the last of a kind counting. */
  lemma ParsePrinted(text: string, header: seq<string>, ps: seq<Piece>)
    requires Shows(text, header, ps)
    ensures Records(NO_ENTRY, false, SplitOn(text, '\n')) == Some(RecordsOf(ps))
  {
    hide Records, PrintablePieces, BodyLines, TrimSpace;
    PaddingIsIgnored(NO_ENTRY, false, SplitOn(text, '\n'), Printed(header, ps));
    HeaderIsSkipped(header, BodyLines(ps));
    BodyIsRead(NO_ENTRY, ps);
    assert Emit(NO_ENTRY) + RecordsOf(ps) == RecordsOf(ps);
  }

  /** The answer to a text. */
  function Answer(l: Limits, text: string): Option<ListingError> {
    Finish(l, FeedAll(l, START, SplitOn(text, '\n')))
  }

  /** A printed listing gets the answer that its records deserve, whatever that is. */
  lemma PrintedIsJudged(l: Limits, text: string, header: seq<string>, ps: seq<Piece>)
    requires Shows(text, header, ps)
    ensures Answer(l, text) == Judged(l, RecordsOf(ps), 0, 0)
    ensures forall i :: 0 <= i < |RecordsOf(ps)| ==> RecordsOf(ps)[i].hasPath
  {
    hide Records, FeedAll, Finish, Judged, Shows;
    ParsePrinted(text, header, ps);
    StreamIsParseThenCheck(l, START, SplitOn(text, '\n'));
    RecordsHavePaths(ps);
  }

  lemma {:induction false} RecordsHavePaths(ps: seq<Piece>)
    ensures forall i :: 0 <= i < |RecordsOf(ps)| ==> RecordsOf(ps)[i].hasPath
  {
    hide SizeIn, IsFolder;
    if ps != [] {
      RecordsHavePaths(ps[1..]);
    }
  }

  /**
   A printed listing with sizes of any int64 is accepted exactly when its paths are safe, every file
   has a size, there is a file, and the files keep both limits, the one on size in int64.
   */
  lemma PrintedListingExactly(l: Limits, text: string, header: seq<string>, ps: seq<Piece>)
    requires Shows(text, header, ps)
    ensures var es := RecordsOf(ps);
            Answer(l, text) == None <==>
              && (forall i :: 0 <= i < |es| ==>
                    ValidateArchiveEntryPath(es[i].path) == None && (es[i].isDir || es[i].hasSize))
              && 1 <= CountFiles(es) <= l.maxFiles
              && WithinUpTo(l, es, |es|)
  {
    hide ValidateArchiveEntryPath, Shows, Answer, WithinUpTo;
    PrintedIsJudged(l, text, header, ps);
    var es := RecordsOf(ps);
    AcceptsExactlyWhen(l, es);
    assert es[..|es|] == es;
    assert AllSound(es) <==>
             forall i :: 0 <= i < |es| ==>
               ValidateArchiveEntryPath(es[i].path) == None && (es[i].isDir || es[i].hasSize);
  }

  /** The same in true numbers, when no size is beyond maxInt64 - maxTotalSize. */
  lemma PrintedListingAccepted(l: Limits, text: string, header: seq<string>, ps: seq<Piece>)
    requires Shows(text, header, ps) && 0 <= l.maxTotalSize <= MAX_INT64
    requires forall i :: 0 <= i < |RecordsOf(ps)| ==> 0 <= RecordsOf(ps)[i].size <= MAX_INT64 - l.maxTotalSize
    ensures var es := RecordsOf(ps);
            Answer(l, text) == None <==>
              && (forall i :: 0 <= i < |es| ==>
                    ValidateArchiveEntryPath(es[i].path) == None && (es[i].isDir || es[i].hasSize))
              && 1 <= CountFiles(es) <= l.maxFiles
              && SumSizes(es) <= l.maxTotalSize
  {
    hide ValidateArchiveEntryPath, Shows, Answer, WithinUpTo;
    PrintedListingExactly(l, text, header, ps);
    PrintedIsJudged(l, text, header, ps);
    ModestSizesAreExact(l, RecordsOf(ps));
    AcceptsExactlyWhen(l, RecordsOf(ps));
  }

  /** A size that is not one, or is negative, is refused wherever the scan gets to it. */
  lemma BadSizeIsRefused(l: Limits, front: seq<string>, size: string, rest: seq<string>)
    requires FeedAll(l, START, front).Ok? && FeedAll(l, START, front).value.inEntries
    requires Printable(size) && (ParseInt(size).None? || ParseInt(size).value < 0)
    ensures FeedAll(l, START, front + [Line("Size", size)] + rest) == Err(BadSize)
  {
    hide ParseInt;
    var lines := front + [Line("Size", size)] + rest;
    FeedAllAppend(l, START, front, Line("Size", size));
    LineIsRead("Size", size);
    assert lines[..|front| + 1] == front + [Line("Size", size)];
    FeedAllStops(l, START, lines, |front| + 1);
  }

  // The int64 total of a text can wrap

  function File(path: string, size: nat): Piece {
    Piece([], Some(path), [Size(Decimal(size))], Blank)
  }

  /** Two files, the second as large as an int64 can say: their sum wraps below zero. */
  const WRAPPING: seq<Piece> := [File("a", 1), File("b", MAX_INT64)]

  lemma NothingListed()
    ensures CountFiles([]) == 0 && SumSizes([]) == 0
  {
  }

  lemma WrappingSums(l: Limits, rs: seq<Entry>)
    requires |rs| == 2 && !rs[0].isDir && !rs[1].isDir && rs[0].size == 1 && rs[1].size == MAX_INT64
    requires 1 <= l.maxTotalSize
    ensures CountFiles(rs) == 2 && SumSizes(rs) == MAX_INT64 + 1 && WithinUpTo(l, rs, 2)
  {
    hide ValidateArchiveEntryPath, CountFiles, SumSizes, Wrap64;
    assert rs[..0] == [] && rs[..2] == rs;
    NothingListed();
    FrontStep(rs, 0);
    FrontStep(rs, 1);
    WrapPastTheEnd();
  }

  lemma FileIsPrinted(path: string, size: nat)
    requires Printable(path) && size <= MAX_INT64
    ensures PieceLines(File(path, size)) == [Line("Path", path), Line("Size", Decimal(size)), ""]
    ensures PrintablePiece(File(path, size))
    ensures RecordOf(File(path, size)) == Entry(path, size, false, true, true)
  {
    hide ParseInt, Decimal, DFirst;
    var p, fs := File(path, size), [Size(Decimal(size))];
    ParseNumber(0, size);
    assert Zeros(0) + Decimal(size) == Decimal(size);
    assert FieldLines(fs) == [Line("Size", Decimal(size))] + FieldLines([]);
    assert p.before + p.after == fs && fs[..0] == [];
    assert forall c :: c in Decimal(size) ==> Digit(c);
  }

  lemma WrappingLines()
    ensures Printed([], WRAPPING) ==
              [SEPARATOR, Line("Path", "a"), Line("Size", Decimal(1)), "",
               Line("Path", "b"), Line("Size", Decimal(MAX_INT64)), ""]
    ensures forall i :: 0 <= i < 7 ==> '\n' !in Printed([], WRAPPING)[i]
  {
    hide Decimal, PieceLines, Line;
    FileIsPrinted("a", 1);
    FileIsPrinted("b", MAX_INT64);
    assert BodyLines([WRAPPING[1]]) == PieceLines(WRAPPING[1]) + [];
    assert WRAPPING[1..] == [WRAPPING[1]];
    NoLineBreak("Size", Decimal(1));
    NoLineBreak("Size", Decimal(MAX_INT64));
    NoLineBreak("Path", "a");
    NoLineBreak("Path", "b");
  }

  lemma NoLineBreak(key: string, value: string)
    requires '\n' !in key && (AllDigits(value) || '\n' !in value)
    ensures '\n' !in Line(key, value)
  {
  }

  lemma WrappingRecords()
    ensures PrintablePieces(WRAPPING)
    ensures RecordsOf(WRAPPING) == [Entry("a", 1, false, true, true), Entry("b", MAX_INT64, false, true, true)]
  {
    hide PrintablePiece, RecordOf, Decimal;
    FileIsPrinted("a", 1);
    FileIsPrinted("b", MAX_INT64);
    assert RecordsOf([WRAPPING[1]]) == [RecordOf(WRAPPING[1])] + [];
    assert WRAPPING[1..] == [WRAPPING[1]];
  }

  lemma ShortPathIsAccepted(path: string)
    requires path == "a" || path == "b"
    ensures ValidateArchiveEntryPath(path) == None
  {
    hide ValidateArchiveEntryPath;
    AcceptedExactlyWhen(path);
    SplitFirst(path, "", '/');
  }

  lemma WrappingText() returns (text: string)
    ensures Shows(text, [], WRAPPING)
  {
    hide Printed, PrintablePieces;
    text := JoinWith(Printed([], WRAPPING), '\n');
    WrappingLines();
    WrappingRecords();
    SplitJoin(Printed([], WRAPPING), '\n');
  }

  /** For the limits of the program, a text that is accepted although its sizes add up to far more. */
  lemma TotalCanWrap() returns (text: string)
    ensures Shows(text, [], WRAPPING)
    ensures var l := Limits(100, 104857600);
            Answer(l, text) == None && SumSizes(RecordsOf(WRAPPING)) > l.maxTotalSize
  {
    hide Shows, RecordsOf, Answer, ValidateArchiveEntryPath, CountFiles, SumSizes, WithinUpTo;
    var l, es := Limits(100, 104857600), RecordsOf(WRAPPING);
    text := WrappingText();
    WrappingRecords();
    WrappingSums(l, es);
    ShortPathIsAccepted("a");
    ShortPathIsAccepted("b");
    assert forall i :: 0 <= i < |es| ==> ValidateArchiveEntryPath(es[i].path) == None && es[i].hasSize;
    PrintedListingExactly(l, text, [], WRAPPING);
  }
}
