/** The check of a `7z l -slt` listing before extraction (internal/converter/decompress.go). */
module Listing {
  import opened Int64
  import opened Paths
  import opened Text
  import opened Wrappers

  // Lines

  /** unicode.IsSpace. */
  predicate Space(c: char) {
    || '\t' <= c <= '\r' || c == ' ' || c == '\U{85}' || c == '\U{A0}' || c == '\U{1680}'
    || '\U{2000}' <= c <= '\U{200A}' || c == '\U{2028}' || c == '\U{2029}' || c == '\U{202F}'
    || c == '\U{205F}' || c == '\U{3000}'
  }

  function TrimStart(s: string): string {
    if s != "" && Space(s[0]) then TrimStart(s[1..]) else s
  }

  function TrimEnd(s: string): string {
    if s != "" && Space(s[|s| - 1]) then TrimEnd(s[..|s| - 1]) else s
  }

  function TrimSpace(s: string): string {
    TrimEnd(TrimStart(s))
  }

  /** strings.Cut(s, " = "). */
  function Cut(s: string): Option<(string, string)> {
    if s == "" then None
    else if " = " <= s then Some(("", s[3..]))
    else
      match Cut(s[1..])
      case None => None
      case Some((key, value)) => Some(([s[0]] + key, value))
  }

  predicate Digit(c: char) {
    '0' <= c <= '9'
  }

  function DigitValue(c: char): nat
    requires Digit(c)
  {
    c as int - '0' as int
  }

  predicate AllDigits(s: string) {
    forall i :: 0 <= i < |s| ==> Digit(s[i])
  }

  function Digits(s: string): nat
    requires AllDigits(s)
  {
    if s == "" then 0 else Digits(s[..|s| - 1]) * 10 + DigitValue(s[|s| - 1])
  }

  /** strconv.ParseInt(s, 10, 64). */
  function ParseInt(s: string): Option<int> {
    var negative := s != "" && s[0] == '-';
    var digits := if s != "" && (s[0] == '-' || s[0] == '+') then s[1..] else s;
    if digits == "" || !AllDigits(digits) then None
    else
      var n: int := Digits(digits);
      if negative then (if n <= MAX_INT64 + 1 then Some(-n) else None)
      else if n <= MAX_INT64 then Some(n) else None
  }

  predicate AttributesIsDir(value: string) {
    var v := TrimSpace(value);
    v != "" && v[0] == 'D'
  }

  // The scan

  datatype Entry = Entry(path: string, size: int, isDir: bool, hasPath: bool, hasSize: bool)

  const NO_ENTRY: Entry := Entry("", 0, false, false, false)

  datatype ListingError = NoSize | BadPath(error: EntryError) | TooManyFiles | TooLarge | BadSize | EmptyArchive

  datatype Limits = Limits(maxFiles: int, maxTotalSize: int)

  /** The variables of validate7zListing. */
  datatype Scan = Scan(current: Entry, inEntries: bool, files: int, total: int)

  const START: Scan := Scan(NO_ENTRY, false, 0, 0)

  /** flush, for the entry as it stands. */
  function Account(l: Limits, e: Entry, files: int, total: int): Result<(int, int), ListingError> {
    if !e.hasPath then Ok((files, total))
    else
      var bad := ValidateArchiveEntryPath(e.path);
      if e.isDir then (if bad.Some? then Err(BadPath(bad.value)) else Ok((files, total)))
      else if !e.hasSize then Err(NoSize)
      else if bad.Some? then Err(BadPath(bad.value))
      else if files + 1 > l.maxFiles then Err(TooManyFiles)
      else if Add64(total, e.size) > l.maxTotalSize then Err(TooLarge)
      else Ok((files + 1, Add64(total, e.size)))
  }

  function Flush(l: Limits, s: Scan): Result<Scan, ListingError> {
    match Account(l, s.current, s.files, s.total)
    case Err(e) => Err(e)
    case Ok((files, total)) => Ok(Scan(NO_ENTRY, s.inEntries, files, total))
  }

  /** A field other than a path. */
  function SetField(e: Entry, key: string, value: string): Result<Entry, ListingError> {
    match key
    case "Size" =>
      var size := ParseInt(value);
      if size.None? || size.value < 0 then Err(BadSize) else Ok(e.(size := size.value, hasSize := true))
    case "Folder" => Ok(e.(isDir := value == "+"))
    case "Attributes" => Ok(if AttributesIsDir(value) then e.(isDir := true) else e)
    case _ => Ok(e)
  }

  /** One raw line. */
  function Feed(l: Limits, s: Scan, raw: string): Result<Scan, ListingError> {
    var line := TrimSpace(raw);
    if line == "----------" then Ok(s.(inEntries := true, current := NO_ENTRY))
    else if !s.inEntries then Ok(s)
    else if line == "" then Flush(l, s)
    else
      match Cut(line)
      case None => Ok(s)
      case Some((key, value)) =>
        if key == "Path" then
          var r := if s.current.hasPath then Flush(l, s) else Ok(s);
          (match r
           case Err(e) => Err(e)
           case Ok(t) => Ok(t.(current := t.current.(path := value, hasPath := true))))
        else
          match SetField(s.current, key, value)
          case Err(e) => Err(e)
          case Ok(e) => Ok(s.(current := e))
  }

  function FeedAll(l: Limits, s: Scan, lines: seq<string>): Result<Scan, ListingError>
    decreases |lines|
  {
    if lines == [] then Ok(s)
    else
      match Feed(l, s, lines[0])
      case Err(e) => Err(e)
      case Ok(t) => FeedAll(l, t, lines[1..])
  }

  /** After the last line. */
  function Finish(l: Limits, r: Result<Scan, ListingError>): Option<ListingError> {
    match r
    case Err(e) => Some(e)
    case Ok(s) =>
      match Flush(l, s)
      case Err(e) => Some(e)
      case Ok(t) => if t.files == 0 then Some(EmptyArchive) else None
  }

  lemma {:induction false} FeedAllAppend(l: Limits, s: Scan, lines: seq<string>, raw: string)
    ensures FeedAll(l, s, lines + [raw]) ==
              match FeedAll(l, s, lines)
              case Err(e) => Err(e)
              case Ok(t) => Feed(l, t, raw)
    decreases |lines|
  {
    if lines == [] {
      assert (lines + [raw])[1..] == [];
    } else {
      assert (lines + [raw])[1..] == lines[1..] + [raw];
      if Feed(l, s, lines[0]).Ok? {
        FeedAllAppend(l, Feed(l, s, lines[0]).value, lines[1..], raw);
      }
    }
  }

  lemma {:induction false} FeedAllStops(l: Limits, s: Scan, lines: seq<string>, n: nat)
    requires n <= |lines| && FeedAll(l, s, lines[..n]).Err?
    ensures FeedAll(l, s, lines) == FeedAll(l, s, lines[..n])
    decreases n
  {
    if n > 0 && Feed(l, s, lines[0]).Ok? {
      assert lines[..n][1..] == lines[1..][..n - 1];
      FeedAllStops(l, Feed(l, s, lines[0]).value, lines[1..], n - 1);
    }
  }

  /** The streaming validator, with the variables its closure captures. */
  class Scanner {
    const limits: Limits
    var current: Entry
    var files: int
    var total: int

    constructor (limits: Limits)
      ensures this.limits == limits && current == NO_ENTRY && files == 0 && total == 0
    {
      this.limits, current, files, total := limits, NO_ENTRY, 0, 0;
    }

    /** The closure `flush`; its deferred reset happens on every path. */
    method FlushEntry() returns (err: Option<ListingError>)
      modifies this
      ensures current == NO_ENTRY
      ensures match Account(limits, old(current), old(files), old(total))
              case Err(e) => err == Some(e)
              case Ok((f, t)) => err == None && files == f && total == t
    {
      var entry := current;
      current := NO_ENTRY;
      if !entry.hasPath {
        return None;
      }
      var bad := ValidateArchiveEntryPath(entry.path);
      if entry.isDir {
        return if bad.Some? then Some(BadPath(bad.value)) else None;
      }
      if !entry.hasSize {
        return Some(NoSize);
      }
      if bad.Some? {
        return Some(BadPath(bad.value));
      }
      files := files + 1;
      if files > limits.maxFiles {
        return Some(TooManyFiles);
      }
      total := Add64(total, entry.size);
      if total > limits.maxTotalSize {
        return Some(TooLarge);
      }
      return None;
    }
  }

  method Validate7zListing(out: string, limits: Limits) returns (err: Option<ListingError>)
    ensures err == Finish(limits, FeedAll(limits, START, SplitOn(out, '\n')))
  {
    hide TrimSpace, Cut, SetField, Account, SplitOn;
    var lines := SplitOn(out, '\n');
    var scan := new Scanner(limits);
    var inEntries := false;
    for i := 0 to |lines|
      invariant fresh(scan) && scan.limits == limits
      invariant FeedAll(limits, START, lines[..i]) == Ok(Scan(scan.current, inEntries, scan.files, scan.total))
    {
      FeedAllAppend(limits, START, lines[..i], lines[i]);
      assert lines[..i + 1] == lines[..i] + [lines[i]];
      if FeedAll(limits, START, lines[..i + 1]).Err? {
        FeedAllStops(limits, START, lines, i + 1);
      }
      var line := TrimSpace(lines[i]);
      if line == "----------" {
        inEntries := true;
        scan.current := NO_ENTRY;
        continue;
      }
      if !inEntries {
        continue;
      }
      if line == "" {
        err := scan.FlushEntry();
        if err.Some? {
          return;
        }
        continue;
      }
      var cut := Cut(line);
      if cut.None? {
        continue;
      }
      var (key, value) := cut.value;
      if key == "Path" {
        if scan.current.hasPath {
          err := scan.FlushEntry();
          if err.Some? {
            return;
          }
        }
        scan.current := scan.current.(path := value, hasPath := true);
      } else {
        var updated := SetField(scan.current, key, value);
        if updated.Err? {
          return Some(updated.error);
        }
        scan.current := updated.value;
      }
    }
    assert lines[..|lines|] == lines;
    err := scan.FlushEntry();
    if err.Some? {
      return;
    }
    return if scan.files == 0 then Some(EmptyArchive) else None;
  }

  // Parse first, check then

  function Emit(e: Entry): seq<Entry> {
    if e.hasPath then [e] else []
  }

  function Prepend(es: seq<Entry>, rest: Option<seq<Entry>>): Option<seq<Entry>> {
    if rest.None? then None else Some(es + rest.value)
  }

  /** The records of a listing; None when a size is not a size. */
  function Records(current: Entry, inEntries: bool, lines: seq<string>): Option<seq<Entry>>
    decreases |lines|
  {
    if lines == [] then Some(Emit(current))
    else
      var line, rest := TrimSpace(lines[0]), lines[1..];
      if line == "----------" then Records(NO_ENTRY, true, rest)
      else if !inEntries then Records(current, inEntries, rest)
      else if line == "" then Prepend(Emit(current), Records(NO_ENTRY, inEntries, rest))
      else
        match Cut(line)
        case None => Records(current, inEntries, rest)
        case Some((key, value)) =>
          if key == "Path" then
            if current.hasPath then
              Prepend([current], Records(NO_ENTRY.(path := value, hasPath := true), inEntries, rest))
            else Records(current.(path := value, hasPath := true), inEntries, rest)
          else
            match SetField(current, key, value)
            case Err(_) => None
            case Ok(e) => Records(e, inEntries, rest)
  }

  /** The checks of flush, record by record. */
  function Check(l: Limits, es: seq<Entry>, files: int, total: int): Result<(int, int), ListingError>
    decreases |es|
  {
    if es == [] then Ok((files, total))
    else
      match Account(l, es[0], files, total)
      case Err(e) => Err(e)
      case Ok((f, t)) => Check(l, es[1..], f, t)
  }

  /** The answer for a list of records. */
  function Judged(l: Limits, es: seq<Entry>, files: int, total: int): Option<ListingError> {
    match Check(l, es, files, total)
    case Err(e) => Some(e)
    case Ok((f, _)) => if f == 0 then Some(EmptyArchive) else None
  }

  lemma JudgedPrepend(l: Limits, e: Entry, rest: seq<Entry>, files: int, total: int)
    ensures Judged(l, Emit(e) + rest, files, total) ==
              match Account(l, e, files, total)
              case Err(x) => Some(x)
              case Ok((f, t)) => Judged(l, rest, f, t)
  {
    hide ValidateArchiveEntryPath;
    if e.hasPath {
      assert ([e] + rest)[1..] == rest;
    } else {
      assert [] + rest == rest;
    }
  }

  /** What parsing finds decides the answer. */
  predicate Agrees(l: Limits, parsed: Option<seq<Entry>>, files: int, total: int, answer: Option<ListingError>) {
    if parsed.Some? then answer == Judged(l, parsed.value, files, total) else answer.Some?
  }

  lemma AgreesPrepend(l: Limits, e: Entry, rest: Option<seq<Entry>>, files: int, total: int,
                      answer: Option<ListingError>)
    requires match Account(l, e, files, total)
             case Err(x) => answer == Some(x)
             case Ok((f, t)) => Agrees(l, rest, f, t, answer)
    ensures Agrees(l, Prepend(Emit(e), rest), files, total, answer)
  {
    hide ValidateArchiveEntryPath, Judged;
    if rest.Some? {
      JudgedPrepend(l, e, rest.value, files, total);
    }
  }

  /**
   On every text, streaming gives the answer of parsing all records first and checking them
   afterwards; when they cannot be parsed, it refuses.
   */
  lemma {:induction false} StreamIsParseThenCheck(l: Limits, s: Scan, lines: seq<string>)
    ensures Agrees(l, Records(s.current, s.inEntries, lines), s.files, s.total, Finish(l, FeedAll(l, s, lines)))
    decreases |lines|
  {
    hide ValidateArchiveEntryPath;
    if lines == [] {
      JudgedPrepend(l, s.current, [], s.files, s.total);
      assert Emit(s.current) + [] == Emit(s.current);
    } else {
      var rest := lines[1..];
      var fed := Feed(l, s, lines[0]);
      if fed.Ok? {
        StreamIsParseThenCheck(l, fed.value, rest);
      }
      var line := TrimSpace(lines[0]);
      if line != "----------" && s.inEntries {
        var answer := Finish(l, FeedAll(l, s, lines));
        if line == "" {
          AgreesPrepend(l, s.current, Records(NO_ENTRY, true, rest), s.files, s.total, answer);
        } else if s.current.hasPath {
          match Cut(line)
          case None =>
          case Some((key, value)) =>
            if key == "Path" {
              AgreesPrepend(l, s.current, Records(NO_ENTRY.(path := value, hasPath := true), true, rest),
                            s.files, s.total, answer);
            }
        }
      }
    }
  }

  // What the checks mean

  predicate SoundRecord(e: Entry) {
    e.hasPath && ValidateArchiveEntryPath(e.path) == None && (e.isDir || e.hasSize)
  }

  predicate AllSound(es: seq<Entry>) {
    forall i :: 0 <= i < |es| ==> SoundRecord(es[i])
  }

  function CountFiles(es: seq<Entry>): nat {
    if es == [] then 0 else CountFiles(es[..|es| - 1]) + if es[|es| - 1].isDir then 0 else 1
  }

  /** The true sum of the declared sizes. */
  function SumSizes(es: seq<Entry>): int {
    if es == [] then 0
    else SumSizes(es[..|es| - 1]) + if es[|es| - 1].isDir then 0 else es[|es| - 1].size
  }

  /** What a listing should satisfy: sound records, and its files within both limits. */
  ghost predicate Meets(l: Limits, es: seq<Entry>) {
    && AllSound(es)
    && (CountFiles(es) > 0 ==> CountFiles(es) <= l.maxFiles && SumSizes(es) <= l.maxTotalSize)
  }

  /** Records as they are parsed: with a path, and sizes that are an int64 not below 0. */
  predicate ParsedRecord(e: Entry) {
    e.hasPath && 0 <= e.size <= MAX_INT64
  }

  lemma {:induction false} CheckAppend(l: Limits, es: seq<Entry>, e: Entry, files: int, total: int)
    ensures Check(l, es + [e], files, total) ==
              match Check(l, es, files, total)
              case Err(x) => Err(x)
              case Ok((f, t)) => Account(l, e, f, t)
    decreases |es|
  {
    hide ValidateArchiveEntryPath;
    if es == [] {
      assert (es + [e])[1..] == [];
    } else {
      assert (es + [e])[1..] == es[1..] + [e];
      match Account(l, es[0], files, total)
      case Err(_) =>
      case Ok((f, t)) => CheckAppend(l, es[1..], e, f, t);
    }
  }

  /** After each of the first n records that is a file, the wrapped running total is within the limit. */
  predicate WithinUpTo(l: Limits, es: seq<Entry>, n: nat)
    requires n <= |es|
  {
    forall k :: 0 <= k < n && !es[k].isDir ==> Wrap64(SumSizes(es[..k + 1])) <= l.maxTotalSize
  }

  predicate CountFits(l: Limits, count: nat) {
    count > 0 ==> count <= l.maxFiles
  }

  /** What the scan really asks of the first n records: the running totals are int64. */
  predicate Tolerates(l: Limits, es: seq<Entry>, n: nat)
    requires n <= |es|
  {
    AllSound(es[..n]) && CountFits(l, CountFiles(es[..n])) && WithinUpTo(l, es, n)
  }

  lemma FrontStep(es: seq<Entry>, n: nat)
    requires n < |es|
    ensures es[..n + 1] == es[..n] + [es[n]]
    ensures CountFiles(es[..n + 1]) == CountFiles(es[..n]) + if es[n].isDir then 0 else 1
    ensures SumSizes(es[..n + 1]) == SumSizes(es[..n]) + if es[n].isDir then 0 else es[n].size
    ensures AllSound(es[..n + 1]) <==> AllSound(es[..n]) && SoundRecord(es[n])
  {
    hide ValidateArchiveEntryPath;
    var p := es[..n + 1];
    assert p[..n] == es[..n] && p[n] == es[n];
  }

  /** One record more, for numbers that are right so far. */
  lemma AccountStep(l: Limits, e: Entry, files: nat, sum: int)
    requires e.hasPath && CountFits(l, files)
    ensures Account(l, e, files, Wrap64(sum)).Ok? <==>
              && SoundRecord(e)
              && (!e.isDir ==> CountFits(l, files + 1) && Wrap64(sum + e.size) <= l.maxTotalSize)
    ensures Account(l, e, files, Wrap64(sum)).Ok? ==>
              Account(l, e, files, Wrap64(sum)).value ==
              if e.isDir then (files, Wrap64(sum)) else (files + 1, Wrap64(sum + e.size))
  {
    hide ValidateArchiveEntryPath;
    AddWrapped(sum, e.size);
  }

  /** What the scan makes of the first n records. */
  predicate Modular(l: Limits, es: seq<Entry>, n: nat, r: Result<(int, int), ListingError>)
    requires n <= |es|
  {
    && (r.Ok? <==> Tolerates(l, es, n))
    && (r.Ok? ==> r.value == (CountFiles(es[..n]), Wrap64(SumSizes(es[..n]))))
  }

  lemma ModularStep(l: Limits, es: seq<Entry>, n: nat, r: Result<(int, int), ListingError>)
    requires n < |es| && Tolerates(l, es, n)
    requires var files, sum, e := CountFiles(es[..n]), SumSizes(es[..n]), es[n];
             && (r.Ok? <==>
                   SoundRecord(e) && (!e.isDir ==> CountFits(l, files + 1) && Wrap64(sum + e.size) <= l.maxTotalSize))
             && (r.Ok? ==> r.value == if e.isDir then (files, Wrap64(sum)) else (files + 1, Wrap64(sum + e.size)))
    ensures Modular(l, es, n + 1, r)
  {
    hide ValidateArchiveEntryPath;
    FrontStep(es, n);
  }

  lemma ModularStops(l: Limits, es: seq<Entry>, n: nat)
    requires n < |es| && !Tolerates(l, es, n)
    ensures !Tolerates(l, es, n + 1)
  {
    hide ValidateArchiveEntryPath;
    FrontStep(es, n);
  }

  /** On every listing and each beginning of it: what is accepted, and what is counted. */
  lemma {:induction false} CheckIsModular(l: Limits, es: seq<Entry>, n: nat)
    requires n <= |es| && forall i :: 0 <= i < |es| ==> es[i].hasPath
    ensures Modular(l, es, n, Check(l, es[..n], 0, 0))
    decreases n
  {
    hide ValidateArchiveEntryPath;
    if n == 0 {
      assert es[..0] == [];
    } else {
      var k := n - 1;
      CheckIsModular(l, es, k);
      FrontStep(es, k);
      CheckAppend(l, es[..k], es[k], 0, 0);
      if Tolerates(l, es, k) {
        AccountStep(l, es[k], CountFiles(es[..k]), SumSizes(es[..k]));
        ModularStep(l, es, k, Check(l, es[..n], 0, 0));
      } else {
        ModularStops(l, es, k);
      }
    }
  }

  /** The listing is accepted exactly when it is sound and its files keep both limits, the size limit modulo 2^64. */
  lemma AcceptsExactlyWhen(l: Limits, es: seq<Entry>)
    requires forall i :: 0 <= i < |es| ==> es[i].hasPath
    ensures Check(l, es, 0, 0).Ok? <==> Tolerates(l, es, |es|)
    ensures Tolerates(l, es, |es|) ==> Check(l, es, 0, 0).value == (CountFiles(es), Wrap64(SumSizes(es)))
  {
    hide ValidateArchiveEntryPath;
    CheckIsModular(l, es, |es|);
    assert es[..|es|] == es;
  }

  lemma {:induction false} CheckStops(l: Limits, es: seq<Entry>, n: nat, files: int, total: int)
    requires n <= |es| && Check(l, es[..n], files, total).Err?
    ensures Check(l, es, files, total) == Check(l, es[..n], files, total)
    decreases n
  {
    hide ValidateArchiveEntryPath;
    if n > 0 {
      assert es[..n][1..] == es[1..][..n - 1];
      match Account(l, es[0], files, total)
      case Err(_) =>
      case Ok((f, t)) => CheckStops(l, es[1..], n - 1, f, t);
    }
  }

  /** The first record that is not tolerated decides what the listing is refused for. */
  lemma RefusedExactlyWhen(l: Limits, es: seq<Entry>, n: nat)
    requires n < |es| && forall i :: 0 <= i < |es| ==> es[i].hasPath
    requires Tolerates(l, es, n) && !Tolerates(l, es, n + 1)
    ensures var (e, bad) := (es[n], ValidateArchiveEntryPath(es[n].path));
            Check(l, es, 0, 0) == Err(
              if !e.isDir && !e.hasSize then NoSize
              else if bad.Some? then BadPath(bad.value)
              else if CountFiles(es[..n]) + 1 > l.maxFiles then TooManyFiles
              else TooLarge)
  {
    hide ValidateArchiveEntryPath, Tolerates, CountFiles, SumSizes, Wrap64;
    CheckIsModular(l, es, n);
    CheckIsModular(l, es, n + 1);
    FrontStep(es, n);
    CheckAppend(l, es[..n], es[n], 0, 0);
    CheckStops(l, es, n + 1, 0, 0);
  }

  // Where the int64 total differs from the true one

  lemma {:induction false} SumGrows(es: seq<Entry>, n: nat)
    requires n <= |es| && forall i :: 0 <= i < |es| ==> ParsedRecord(es[i])
    ensures 0 <= SumSizes(es[..n]) <= SumSizes(es)
    ensures CountFiles(es[..n]) <= CountFiles(es)
    ensures CountFiles(es[..n]) == 0 ==> SumSizes(es[..n]) == 0
    decreases |es| + n
  {
    if n == |es| {
      assert es[..n] == es;
      if n > 0 {
        FrontStep(es, n - 1);
        SumGrows(es, n - 1);
      }
    } else if n > 0 {
      SumGrows(es[..|es| - 1], n);
      assert es[..|es| - 1][..n] == es[..n];
    } else {
      var all := es[..|es| - 1];
      SumGrows(all, 0);
      assert es[..0] == all[..0];
    }
  }

  /** A listing that keeps the limits is never refused. */
  lemma MeetsIsTolerated(l: Limits, es: seq<Entry>)
    requires l.maxTotalSize <= MAX_INT64 && Meets(l, es)
    requires forall i :: 0 <= i < |es| ==> ParsedRecord(es[i])
    ensures Tolerates(l, es, |es|)
    ensures CountFiles(es) > 0 ==> Wrap64(SumSizes(es)) == SumSizes(es)
  {
    hide ValidateArchiveEntryPath;
    assert es[..|es|] == es;
    forall k | 0 <= k < |es| && !es[k].isDir ensures Wrap64(SumSizes(es[..k + 1])) <= l.maxTotalSize {
      SumGrows(es, k + 1);
      FrontStep(es, k);
      WrapKeeps(SumSizes(es[..k + 1]));
    }
    SumGrows(es, |es|);
    if CountFiles(es) > 0 {
      WrapKeeps(SumSizes(es));
    }
  }

  /**
   The scan is right about a listing unless the true sum is over the limit and the running total,
   wrapped to int64, never is.
   */
  lemma RightExactlyWhen(l: Limits, es: seq<Entry>)
    requires l.maxTotalSize <= MAX_INT64
    requires forall i :: 0 <= i < |es| ==> ParsedRecord(es[i])
    ensures (Check(l, es, 0, 0).Ok? <==> Meets(l, es)) <==>
              !(AllSound(es) && 0 < CountFiles(es) <= l.maxFiles
                && SumSizes(es) > l.maxTotalSize && WithinUpTo(l, es, |es|))
  {
    hide ValidateArchiveEntryPath;
    AcceptsExactlyWhen(l, es);
    assert es[..|es|] == es;
    if Meets(l, es) {
      MeetsIsTolerated(l, es);
    }
  }

  lemma {:induction false} ModestSums(l: Limits, es: seq<Entry>, n: nat)
    requires 0 <= l.maxTotalSize <= MAX_INT64 && n <= |es|
    requires forall i :: 0 <= i < |es| ==> ParsedRecord(es[i]) && es[i].size <= MAX_INT64 - l.maxTotalSize
    requires WithinUpTo(l, es, n)
    ensures 0 <= SumSizes(es[..n]) <= l.maxTotalSize
    decreases n
  {
    if n > 0 {
      ModestSums(l, es, n - 1);
      FrontStep(es, n - 1);
      if !es[n - 1].isDir {
        WrapKeeps(SumSizes(es[..n]));
      }
    } else {
      assert es[..0] == [];
    }
  }

  /** Sizes up to maxInt64 - maxTotalSize never wrap. */
  lemma ModestSizesAreExact(l: Limits, es: seq<Entry>)
    requires 0 <= l.maxTotalSize <= MAX_INT64
    requires forall i :: 0 <= i < |es| ==> ParsedRecord(es[i]) && es[i].size <= MAX_INT64 - l.maxTotalSize
    ensures Check(l, es, 0, 0).Ok? <==> Meets(l, es)
    ensures Meets(l, es) ==> Check(l, es, 0, 0).value == (CountFiles(es), SumSizes(es))
  {
    hide ValidateArchiveEntryPath;
    RightExactlyWhen(l, es);
    AcceptsExactlyWhen(l, es);
    assert es[..|es|] == es;
    if WithinUpTo(l, es, |es|) {
      ModestSums(l, es, |es|);
      WrapKeeps(SumSizes(es));
    }
    if Meets(l, es) {
      MeetsIsTolerated(l, es);
    }
  }
}
