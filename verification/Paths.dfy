/**
 Lexical paths: the check on archive entries (internal/converter/decompress.go), the guard in
 front of downloads (internal/api/handlers/convert.go), and the two of Go's path functions they
 use, Clean and Rel, as their documentation defines them.
 */
module Paths {
  import opened Text
  import opened Wrappers

  // Components

  function Split(s: string): (r: seq<string>)
    ensures r != []
    ensures forall i :: 0 <= i < |r| ==> '/' !in r[i]
  {
    SplitOn(s, '/')
  }

  function Join(cs: seq<string>): string {
    JoinWith(cs, '/')
  }

  /** A component that names something. */
  predicate Name(c: string) {
    c != "" && c != "." && c != ".." && '/' !in c
  }

  predicate Names(cs: seq<string>) {
    forall i :: 0 <= i < |cs| ==> Name(cs[i])
  }

  // Clean

  /** Work off the components: drop empty ones and dots, let a name and the dot-dot after it cancel. */
  function CleanParts(rooted: bool, done: seq<string>, todo: seq<string>): seq<string>
    decreases |todo|
  {
    if todo == [] then done
    else
      var c, rest := todo[0], todo[1..];
      if c == "" || c == "." then CleanParts(rooted, done, rest)
      else if c != ".." then CleanParts(rooted, done + [c], rest)
      else if done != [] && done[|done| - 1] != ".." then CleanParts(rooted, done[..|done| - 1], rest)
      else if rooted then CleanParts(rooted, done, rest)
      else CleanParts(rooted, done + [c], rest)
  }

  predicate Rooted(s: string) {
    s != "" && s[0] == '/'
  }

  /** path.Clean, and filepath.Clean on Unix. */
  function Clean(s: string): string {
    var parts := CleanParts(Rooted(s), [], Split(s));
    if Rooted(s) then "/" + Join(parts)
    else if parts == [] then "."
    else Join(parts)
  }

  /** The shape of a cleaned path: dot-dots, if any, come first, and never after a root. */
  predicate Cleaned(rooted: bool, cs: seq<string>) {
    && (forall i :: 0 <= i < |cs| ==> cs[i] != "" && cs[i] != "." && '/' !in cs[i])
    && (forall i :: 0 <= i < |cs| && cs[i] == ".." ==> !rooted && forall j :: 0 <= j < i ==> cs[j] == "..")
  }

  lemma {:induction false} CleanPartsCleaned(rooted: bool, done: seq<string>, todo: seq<string>)
    requires Cleaned(rooted, done) && forall i :: 0 <= i < |todo| ==> '/' !in todo[i]
    ensures Cleaned(rooted, CleanParts(rooted, done, todo))
    decreases |todo|
  {
    if todo != [] {
      var c, rest := todo[0], todo[1..];
      if c == "" || c == "." {
        CleanPartsCleaned(rooted, done, rest);
      } else if c != ".." {
        CleanPartsCleaned(rooted, done + [c], rest);
      } else if done != [] && done[|done| - 1] != ".." {
        CleanPartsCleaned(rooted, done[..|done| - 1], rest);
      } else if rooted {
        CleanPartsCleaned(rooted, done, rest);
      } else {
        CleanPartsCleaned(rooted, done + [c], rest);
      }
    }
  }

  /** Cleaning a clean path changes nothing. */
  lemma {:induction false} CleanPartsKeeps(rooted: bool, done: seq<string>, todo: seq<string>)
    requires Cleaned(rooted, done + todo)
    ensures CleanParts(rooted, done, todo) == done + todo
    decreases |todo|
  {
    if todo == [] {
      assert done + todo == done;
    } else {
      assert (done + todo)[|done|] == todo[0];
      assert done + todo == (done + [todo[0]]) + todo[1..];
      if todo[0] == ".." && done != [] {
        assert (done + todo)[|done| - 1] == "..";
      }
      CleanPartsKeeps(rooted, done + [todo[0]], todo[1..]);
    }
  }

  // Where a path leads

  /** Walk from a directory, given as the names from the root down; the root is its own parent. */
  function Resolve(dir: seq<string>, parts: seq<string>): seq<string>
    decreases |parts|
  {
    if parts == [] then dir
    else
      var c, rest := parts[0], parts[1..];
      if c == "" || c == "." then Resolve(dir, rest)
      else if c == ".." then Resolve(if dir == [] then [] else dir[..|dir| - 1], rest)
      else Resolve(dir + [c], rest)
  }

  lemma {:induction false} ResolveAppend(dir: seq<string>, xs: seq<string>, ys: seq<string>)
    ensures Resolve(dir, xs + ys) == Resolve(Resolve(dir, xs), ys)
    decreases |xs|
  {
    if xs == [] {
      assert xs + ys == ys;
    } else {
      assert (xs + ys)[1..] == xs[1..] + ys;
      var c := xs[0];
      ResolveAppend(if c == "" || c == "." then dir
                    else if c == ".." then (if dir == [] then [] else dir[..|dir| - 1])
                    else dir + [c], xs[1..], ys);
    }
  }

  /** Cleaning keeps where the path leads, from any directory, or from the root if it is rooted. */
  lemma {:induction false} CleanPartsMeaning(rooted: bool, dir: seq<string>, done: seq<string>, todo: seq<string>)
    requires Cleaned(rooted, done) && forall i :: 0 <= i < |todo| ==> '/' !in todo[i]
    requires rooted ==> dir == []
    ensures Resolve(dir, CleanParts(rooted, done, todo)) == Resolve(dir, done + todo)
    decreases |todo|
  {
    if todo == [] {
      assert done + todo == done;
    } else {
      var c, rest := todo[0], todo[1..];
      assert done + todo == (done + [c]) + rest;
      ResolveAppend(dir, done + [c], rest);
      ResolveAppend(dir, done, [c]);
      ResolveAppend(dir, done, rest);
      if c == "" || c == "." {
        CleanPartsMeaning(rooted, dir, done, rest);
      } else if c != ".." {
        CleanPartsMeaning(rooted, dir, done + [c], rest);
      } else if done != [] && done[|done| - 1] != ".." {
        var n := |done| - 1;
        assert done == done[..n] + [done[n]];
        ResolveAppend(dir, done[..n], [done[n]]);
        ResolveAppend(dir, done[..n], rest);
        var at := Resolve(dir, done[..n]);
        assert Resolve(at, [done[n]]) == at + [done[n]];
        assert Resolve(at + [done[n]], [c]) == at;
        CleanPartsMeaning(rooted, dir, done[..n], rest);
      } else if rooted {
        assert done == [];
        CleanPartsMeaning(rooted, dir, done, rest);
      } else {
        CleanPartsMeaning(rooted, dir, done + [c], rest);
      }
    }
  }

  /** The parts of a cleaned path can be read back. */
  lemma SplitClean(s: string)
    ensures var parts := CleanParts(Rooted(s), [], Split(s));
            && Cleaned(Rooted(s), parts)
            && (parts != [] ==> Split(Join(parts)) == parts)
            && Split(Clean(s)) == (if Rooted(s) then [""] else [])
                                  + (if parts != [] then parts else if Rooted(s) then [""] else ["."])
  {
    hide CleanParts;
    var parts := CleanParts(Rooted(s), [], Split(s));
    CleanPartsCleaned(Rooted(s), [], Split(s));
    if parts != [] {
      SplitJoin(parts, '/');
    }
    if Rooted(s) {
      assert Clean(s)[1..] == Join(parts);
      assert Split(Clean(s)) == [""] + Split(Join(parts));
      assert parts == [] ==> Split(Join(parts)) == [""];
    } else if parts == [] {
      SplitFirst(".", "", '/');
    }
  }

  /** Components that do not move. */
  lemma ResolveNowhere(dir: seq<string>)
    ensures Resolve(dir, [""]) == Resolve(dir, ["."]) == Resolve(dir, ["", ""]) == Resolve(dir, []) == dir
  {
  }

  lemma CleanKeepsMeaning(s: string, dir: seq<string>)
    requires Rooted(s) ==> dir == []
    ensures Resolve(dir, Split(Clean(s))) == Resolve(dir, Split(s))
  {
    hide Resolve, Split, CleanParts, Join;
    SplitClean(s);
    var parts := CleanParts(Rooted(s), [], Split(s));
    CleanPartsMeaning(Rooted(s), dir, [], Split(s));
    assert [] + Split(s) == Split(s);
    ResolveNowhere(dir);
    ResolveAppend(dir, [""], parts);
    assert [] + parts == parts;
    assert [""] + [""] == ["", ""] && [] + ["."] == ["."];
  }

  lemma CleanIsIdempotent(s: string)
    ensures Clean(Clean(s)) == Clean(s)
  {
    SplitClean(s);
    var parts := CleanParts(Rooted(s), [], Split(s));
    var t := Clean(s);
    if parts != [] {
      assert Join(parts) != "" && Join(parts)[0] == parts[0][0];
    }
    assert Rooted(t) == Rooted(s);
    CleanPartsKeeps(Rooted(s), [], parts);
    assert [] + parts == parts;
    if Rooted(s) {
      assert Split(t)[0] == "";
      if parts != [] {
        assert Split(t)[1..] == parts;
      } else {
        assert Split(t)[1..] == [""];
        assert CleanParts(true, [], [""]) == [];
      }
      assert CleanParts(true, [], Split(t)) == CleanParts(true, [], Split(t)[1..]);
    } else if parts == [] {
      assert CleanParts(false, [], ["."]) == [];
    }
  }

  // Archive entries

  datatype EntryError = EmptyPath | UnsafeSeparator | AbsolutePath | Escapes

  predicate HasDrive(name: string) {
    |name| >= 3 && name[1] == ':' && name[2] == '/' && ('A' <= name[0] <= 'Z' || 'a' <= name[0] <= 'z')
  }

  predicate HasUnsafeByte(name: string) {
    '\0' in name || '\\' in name
  }

  /** The final check, on the cleaned name. */
  predicate CleanEscapes(clean: string) {
    clean != "." && (clean == ".." || "../" <= clean)
  }

  function ValidateArchiveEntryPath(name: string): Option<EntryError> {
    if name == "" then Some(EmptyPath)
    else if HasUnsafeByte(name) then Some(UnsafeSeparator)
    else if HasDrive(name) then Some(AbsolutePath)
    else if "/" <= name then Some(AbsolutePath)
    else if ".." in Split(name) then Some(Escapes)
    else if CleanEscapes(Clean(name)) then Some(Escapes)
    else None
  }

  lemma {:induction false} NoDotDotCleaned(rooted: bool, done: seq<string>, todo: seq<string>)
    requires ".." !in done && ".." !in todo
    ensures ".." !in CleanParts(rooted, done, todo)
    decreases |todo|
  {
    if todo != [] {
      var c, rest := todo[0], todo[1..];
      assert c in todo && forall x :: x in rest ==> x in todo;
      NoDotDotCleaned(rooted, if c == "" || c == "." then done else done + [c], rest);
    }
  }

  lemma {:induction false} JoinFirst(cs: seq<string>)
    requires cs != [] && forall i :: 0 <= i < |cs| ==> '/' !in cs[i]
    requires cs[0] != ".."
    ensures Join(cs) != ".." && !("../" <= Join(cs))
  {
    SplitJoin(cs, '/');
    if Join(cs) == ".." {
      SplitFirst("..", "", '/');
    } else if "../" <= Join(cs) {
      DotDotFirst(Join(cs));
    }
  }

  lemma DotDotFirst(s: string)
    requires "../" <= s
    ensures Split(s)[0] == ".."
  {
    assert s == ".." + "/" + s[3..];
    SplitFirst("..", s[3..], '/');
  }

  /** Once the component check has passed, the check on the cleaned name cannot fire. */
  lemma CleanCheckNeverFires(name: string)
    requires !Rooted(name) && ".." !in Split(name)
    ensures !CleanEscapes(Clean(name))
  {
    SplitClean(name);
    var parts := CleanParts(false, [], Split(name));
    NoDotDotCleaned(false, [], Split(name));
    if parts != [] {
      JoinFirst(parts);
    }
  }

  /** Walking names and dots never leaves the directory, at any point of the way. */
  lemma {:induction false} StaysBelow(dir: seq<string>, at: seq<string>, parts: seq<string>)
    requires dir <= at && ".." !in parts
    ensures dir <= Resolve(at, parts)
    decreases |parts|
  {
    if parts != [] {
      var c, rest := parts[0], parts[1..];
      assert c in parts && forall x :: x in rest ==> x in parts;
      StaysBelow(dir, if c == "" || c == "." then at else at + [c], rest);
    }
  }

  /** An accepted entry stays below any directory it is extracted to, all along its path. */
  lemma AcceptedEntryIsContained(name: string, dir: seq<string>, k: nat)
    requires ValidateArchiveEntryPath(name) == None && k <= |Split(name)|
    ensures dir <= Resolve(dir, Split(name)[..k])
    ensures dir <= Resolve(dir, Split(Clean(name)))
  {
    assert ".." !in Split(name)[..k] by {
      assert forall x :: x in Split(name)[..k] ==> x in Split(name);
    }
    StaysBelow(dir, dir, Split(name)[..k]);
    StaysBelow(dir, dir, Split(name));
    CleanKeepsMeaning(name, dir);
  }

  /** The cleaned name decides nothing: acceptance is about the name and its components alone. */
  lemma AcceptedExactlyWhen(name: string)
    ensures ValidateArchiveEntryPath(name) == None <==>
              && name != "" && name[0] != '/' && '\0' !in name && '\\' !in name && ".." !in Split(name)
              && !(|name| >= 3 && name[1..3] == ":/" && ('A' <= name[0] <= 'Z' || 'a' <= name[0] <= 'z'))
  {
    if name != "" && name[0] != '/' && ".." !in Split(name) {
      CleanCheckNeverFires(name);
    }
  }

  /** What a refused entry is refused for. */
  lemma RefusedExactlyWhen(name: string)
    ensures ValidateArchiveEntryPath(name) == Some(EmptyPath) <==> name == ""
    ensures ValidateArchiveEntryPath(name) == Some(UnsafeSeparator) <==> '\0' in name || '\\' in name
    ensures ValidateArchiveEntryPath(name) == Some(AbsolutePath) <==>
              && name != "" && '\0' !in name && '\\' !in name
              && (name[0] == '/'
                  || (|name| >= 3 && name[1..3] == ":/" && ('A' <= name[0] <= 'Z' || 'a' <= name[0] <= 'z')))
  {
    hide Split, Clean;
  }

  // Downloads

  /** hasUnsafePathSegment and the tests before it. */
  predicate UnsafeName(name: string) {
    name == "" || Rooted(name) || HasUnsafeByte(name) || "." in Split(name) || ".." in Split(name)
  }

  function Common(a: seq<string>, b: seq<string>): nat {
    if a != [] && b != [] && a[0] == b[0] then 1 + Common(a[1..], b[1..]) else 0
  }

  /** filepath.Rel of two cleaned absolute paths, given by their names. */
  function Rel(base: seq<string>, target: seq<string>): string {
    var k := Common(base, target);
    CommonFits(base, target);
    var parts := seq(|base| - k, _ => "..") + target[k..];
    if parts == [] then "." else Join(parts)
  }

  lemma {:induction false} CommonFits(a: seq<string>, b: seq<string>)
    ensures Common(a, b) <= |a| && Common(a, b) <= |b|
    ensures Common(a, b) == |a| <==> a <= b
  {
    if a != [] && b != [] && a[0] == b[0] {
      CommonFits(a[1..], b[1..]);
    }
  }

  predicate PathWithinBase(base: seq<string>, target: seq<string>) {
    var rel := Rel(base, target);
    rel == "." || (rel != ".." && !("../" <= rel))
  }

  /** A name, or a path below one, is no way up. */
  lemma BelowIsWithin(below: seq<string>)
    requires below != [] && Names(below)
    ensures Join(below) != ".." && !("../" <= Join(below))
  {
    assert Name(below[0]);
    JoinFirst(below);
  }

  lemma UpIsOutside(parts: seq<string>)
    requires parts != [] && parts[0] == ".."
    ensures Join(parts) != "." && (Join(parts) == ".." || "../" <= Join(parts))
  {
    if |parts| > 1 {
      assert Join(parts) == ".." + "/" + Join(parts[1..]);
    }
  }

  /** The textual test on Rel means what it should: the target is the base or below it. */
  lemma WithinBaseIsPrefix(base: seq<string>, target: seq<string>)
    requires Names(base) && Names(target)
    ensures PathWithinBase(base, target) <==> base <= target
  {
    hide Common, Join;
    CommonFits(base, target);
    var k := Common(base, target);
    var parts := seq(|base| - k, _ => "..") + target[k..];
    if k < |base| {
      assert parts[0] == "..";
      UpIsOutside(parts);
    } else if parts != [] {
      assert parts == target[k..];
      BelowIsWithin(parts);
    }
  }

  /**
   The lexical part of openRegularFileUnderDir: the names from the root of the file to open, or
   None for an invalid path. `base` is the absolute directory.
   */
  function OpenUnder(base: seq<string>, name: string): Option<seq<string>> {
    if UnsafeName(name) then None
    else
      var clean := Clean(name);
      if clean == "." || clean == ".." || "../" <= clean then None
      else
        var path := CleanParts(true, [], base + Split(clean));
        if PathWithinBase(base, path) then Some(path) else None
  }

  function NonEmpty(cs: seq<string>): seq<string> {
    if cs == [] then [] else (if cs[0] == "" then [] else [cs[0]]) + NonEmpty(cs[1..])
  }

  lemma {:induction false} CleanPartsOfNames(done: seq<string>, todo: seq<string>)
    requires forall i :: 0 <= i < |todo| ==> todo[i] != "." && todo[i] != ".."
    ensures CleanParts(false, done, todo) == done + NonEmpty(todo)
    decreases |todo|
  {
    if todo == [] {
      assert CleanParts(false, done, todo) == done && NonEmpty(todo) == [];
      assert done + [] == done;
    } else if todo[0] == "" {
      CleanPartsOfNames(done, todo[1..]);
      assert NonEmpty(todo) == [] + NonEmpty(todo[1..]) == NonEmpty(todo[1..]);
    } else {
      CleanPartsOfNames(done + [todo[0]], todo[1..]);
      assert NonEmpty(todo) == [todo[0]] + NonEmpty(todo[1..]);
      assert done + ([todo[0]] + NonEmpty(todo[1..])) == (done + [todo[0]]) + NonEmpty(todo[1..]);
    }
  }

  lemma {:induction false} NonEmptyNames(cs: seq<string>)
    requires forall i :: 0 <= i < |cs| ==> cs[i] == "" || Name(cs[i])
    ensures Names(NonEmpty(cs))
    ensures (exists i :: 0 <= i < |cs| && cs[i] != "") ==> NonEmpty(cs) != []
  {
    if cs != [] {
      NonEmptyNames(cs[1..]);
      if i :| 0 <= i < |cs| && cs[i] != "" {
        assert i > 0 ==> cs[1..][i - 1] != "";
      }
    }
  }

  lemma {:induction false} FirstComponent(s: string)
    requires s != "" && !Rooted(s)
    ensures Split(s)[0] != ""
  {
  }

  /** A name that passes the first test is cleaned to its components that are not empty. */
  lemma CleanOfSafeName(name: string)
    requires !UnsafeName(name)
    ensures var parts := NonEmpty(Split(name));
            && parts != [] && Names(parts)
            && Clean(name) == Join(parts) && Split(Clean(name)) == parts
            && Clean(name) != "." && Clean(name) != ".." && !("../" <= Clean(name))
  {
    var cs := Split(name);
    forall i | 0 <= i < |cs| ensures cs[i] == "" || Name(cs[i]) {
      assert cs[i] in cs;
    }
    CleanPartsOfNames([], cs);
    FirstComponent(name);
    NonEmptyNames(cs);
    var parts := NonEmpty(cs);
    assert [] + parts == parts;
    JoinFirst(parts);
    SplitJoin(parts, '/');
    if Join(parts) == "." {
      SplitFirst(".", "", '/');
    }
  }

  /**
   The first test decides alone: whatever passes it is opened at its components below the base,
   and none of the later tests can refuse it.
   */
  lemma FirstTestDecides(base: seq<string>, name: string)
    requires Names(base)
    ensures OpenUnder(base, name).Some? <==> !UnsafeName(name)
    ensures OpenUnder(base, name).Some? <==>
              && name != "" && name[0] != '/' && '\0' !in name && '\\' !in name
              && forall i :: 0 <= i < |Split(name)| ==> Split(name)[i] != "." && Split(name)[i] != ".."
    ensures !UnsafeName(name) ==>
              && OpenUnder(base, name) == Some(base + NonEmpty(Split(name)))
              && base < base + NonEmpty(Split(name))
  {
    if !UnsafeName(name) {
      CleanOfSafeName(name);
      var parts := NonEmpty(Split(name));
      CleanPartsKeeps(true, [], base + parts);
      assert [] + (base + parts) == base + parts;
      WithinBaseIsPrefix(base, base + parts);
    }
  }
}
