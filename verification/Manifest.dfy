/** The walk over an extracted archive that makes its file manifest (internal/converter/decompress.go). */
module Manifest {
  import opened Int64
  import JobQueue
  import opened Paths
  import opened Text
  import opened Wrappers

  const MAX_FILES: nat := 100
  const MAX_TOTAL_SIZE: int := JobQueue.MAX_OUTPUT_SIZE

  datatype Kind = Directory | Symlink | Regular

  /** One call of the walk function: the names below the output directory, and what is there. */
  datatype Visit = Visit(rel: seq<string>, kind: Kind, size: int, failed: bool)

  datatype Item = Item(name: string, size: int, index: nat)

  datatype WalkError = WalkFailed | TooManyFiles | OutsideOutput | TooLarge | Traversal | EmptyArchive

  /** The files listed so far and their total size. */
  datatype Listed = Listed(files: seq<Item>, totalSize: int)

  predicate Contains(s: string, sub: string) {
    exists i :: 0 <= i <= |s| && sub <= s[i..]
  }

  /** The prefix test on the absolute paths. */
  predicate Inside(base: seq<string>, rel: seq<string>) {
    var outputDir, path := "/" + Join(base), "/" + Join(base + rel);
    outputDir + "/" <= path || path == outputDir
  }

  /** The tests on the relative path. */
  predicate Suspicious(rel: string) {
    ".." <= rel || Contains(rel, "/..") || Contains(rel, "\\")
  }

  function Take(base: seq<string>, l: Listed, v: Visit): Result<Listed, WalkError> {
    if v.failed then Err(WalkFailed)
    else if v.kind != Regular then Ok(l)
    else if |l.files| >= MAX_FILES then Err(TooManyFiles)
    else if !Inside(base, v.rel) then Err(OutsideOutput)
    else
      var total := Add64(l.totalSize, v.size);
      if total > MAX_TOTAL_SIZE then Err(TooLarge)
      else if Suspicious(Join(v.rel)) then Err(Traversal)
      else Ok(Listed(l.files + [Item(Join(v.rel), v.size, |l.files|)], total))
  }

  function TakeAll(base: seq<string>, l: Listed, vs: seq<Visit>): Result<Listed, WalkError>
    decreases |vs|
  {
    if vs == [] then Ok(l)
    else
      var r := Take(base, l, vs[0]);
      if r.Err? then r else TakeAll(base, r.value, vs[1..])
  }

  lemma {:induction false} TakeAllAppend(base: seq<string>, l: Listed, vs: seq<Visit>, v: Visit)
    ensures TakeAll(base, l, vs + [v]) ==
              var r := TakeAll(base, l, vs);
              if r.Err? then r else Take(base, r.value, v)
    decreases |vs|
  {
    if vs != [] {
      assert (vs + [v])[1..] == vs[1..] + [v];
      var r := Take(base, l, vs[0]);
      if r.Ok? {
        TakeAllAppend(base, r.value, vs[1..], v);
      }
    } else {
      assert (vs + [v])[1..] == [];
    }
  }

  /** The walk, with its captured variables. */
  method BuildManifest(base: seq<string>, visits: seq<Visit>) returns (r: Result<Listed, WalkError>)
    ensures r == var all := TakeAll(base, Listed([], 0), visits);
                 if all.Ok? && all.value.files == [] then Err(EmptyArchive) else all
  {
    var files, totalSize, index := [], 0, 0;
    for i := 0 to |visits|
      invariant index == |files|
      invariant TakeAll(base, Listed([], 0), visits[..i]) == Ok(Listed(files, totalSize))
    {
      var v := visits[i];
      TakeAllAppend(base, Listed([], 0), visits[..i], v);
      assert visits[..i + 1] == visits[..i] + [v];
      FirstError(base, Listed([], 0), visits, i + 1);
      if v.failed {
        return Err(WalkFailed);
      }
      if v.kind == Symlink {
        continue;
      }
      if v.kind == Directory {
        continue;
      }
      if index >= MAX_FILES {
        return Err(TooManyFiles);
      }
      if !Inside(base, v.rel) {
        return Err(OutsideOutput);
      }
      totalSize := Add64(totalSize, v.size);
      if totalSize > MAX_TOTAL_SIZE {
        return Err(TooLarge);
      }
      var relPath := Join(v.rel);
      if ".." <= relPath || Contains(relPath, "/..") || Contains(relPath, "\\") {
        return Err(Traversal);
      }
      files := files + [Item(relPath, v.size, index)];
      index := index + 1;
    }
    assert visits[..|visits|] == visits;
    if |files| == 0 {
      return Err(EmptyArchive);
    }
    return Ok(Listed(files, totalSize));
  }

  /** The first error ends the walk. */
  lemma {:induction false} FirstError(base: seq<string>, l: Listed, vs: seq<Visit>, n: nat)
    requires n <= |vs|
    ensures TakeAll(base, l, vs[..n]).Err? ==> TakeAll(base, l, vs) == TakeAll(base, l, vs[..n])
    decreases n
  {
    if n > 0 {
      assert vs[..n][1..] == vs[1..][..n - 1];
      var r := Take(base, l, vs[0]);
      if r.Ok? {
        FirstError(base, r.value, vs[1..], n - 1);
      }
    }
  }

  // What the manifest says

  function Files(vs: seq<Visit>): seq<Visit> {
    if vs == [] then [] else (if vs[0].kind == Regular then [vs[0]] else []) + Files(vs[1..])
  }

  function TotalSize(vs: seq<Visit>): int {
    if vs == [] then 0 else vs[0].size + TotalSize(vs[1..])
  }

  function Items(fs: seq<Visit>, from: nat): seq<Item> {
    seq(|fs|, i requires 0 <= i < |fs| => Item(Join(fs[i].rel), fs[i].size, from + i))
  }

  /** A file as a file system lists it, of a size that cannot overflow the total. */
  predicate Plausible(v: Visit) {
    v.kind == Regular ==> v.rel != [] && Names(v.rel) && 0 <= v.size <= MAX_INT64 - MAX_TOTAL_SIZE
  }

  /** Nothing about this visit stops the walk by itself. */
  predicate Acceptable(v: Visit) {
    !v.failed && (v.kind == Regular ==> !Suspicious(Join(v.rel)))
  }

  predicate AllAcceptable(vs: seq<Visit>) {
    forall i :: 0 <= i < |vs| ==> Acceptable(vs[i])
  }

  lemma InsideAlways(base: seq<string>, rel: seq<string>)
    requires base != [] && rel != []
    ensures Inside(base, rel)
  {
    JoinAppend(base, rel);
  }

  lemma {:induction false} JoinAppend(xs: seq<string>, ys: seq<string>)
    requires xs != [] && ys != []
    ensures Join(xs + ys) == Join(xs) + "/" + Join(ys)
  {
    if |xs| == 1 {
      assert (xs + ys)[1..] == ys;
    } else {
      assert (xs + ys)[1..] == xs[1..] + ys;
      JoinAppend(xs[1..], ys);
    }
  }

  lemma {:induction false} TotalSizeNatural(vs: seq<Visit>)
    requires forall i :: 0 <= i < |vs| ==> vs[i].size >= 0
    ensures TotalSize(vs) >= 0
  {
    if vs != [] {
      TotalSizeNatural(vs[1..]);
    }
  }

  lemma {:induction false} FilesPlausible(vs: seq<Visit>)
    requires forall i :: 0 <= i < |vs| ==> Plausible(vs[i])
    ensures forall i :: 0 <= i < |Files(vs)| ==> Files(vs)[i].kind == Regular && Plausible(Files(vs)[i])
  {
    if vs != [] {
      FilesPlausible(vs[1..]);
    }
  }

  /** With this file listed. */
  function Took(l: Listed, v: Visit): Listed {
    Listed(l.files + [Item(Join(v.rel), v.size, |l.files|)], l.totalSize + v.size)
  }

  /** One visit of a plausible file: no overflow, and the path tests on absolute paths say nothing new. */
  lemma TakePlausible(base: seq<string>, l: Listed, v: Visit)
    requires base != [] && Plausible(v) && 0 <= l.totalSize <= MAX_TOTAL_SIZE
    ensures Take(base, l, v).Ok? <==>
              Acceptable(v) && (v.kind == Regular ==> |l.files| < MAX_FILES && l.totalSize + v.size <= MAX_TOTAL_SIZE)
    ensures Take(base, l, v).Ok? ==> Take(base, l, v).value == if v.kind == Regular then Took(l, v) else l
  {
    if v.kind == Regular {
      InsideAlways(base, v.rel);
      assert Add64(l.totalSize, v.size) == l.totalSize + v.size;
    }
  }

  lemma ItemsFirst(v: Visit, fs: seq<Visit>, from: nat)
    ensures Items([v] + fs, from) == [Item(Join(v.rel), v.size, from)] + Items(fs, from + 1)
  {
  }

  lemma FilesFirst(vs: seq<Visit>, from: nat)
    requires vs != []
    ensures vs[0].kind == Regular ==>
              && |Files(vs)| == 1 + |Files(vs[1..])|
              && TotalSize(Files(vs)) == vs[0].size + TotalSize(Files(vs[1..]))
              && Items(Files(vs), from) == [Item(Join(vs[0].rel), vs[0].size, from)] + Items(Files(vs[1..]), from + 1)
    ensures vs[0].kind != Regular ==> Files(vs) == Files(vs[1..])
  {
    var fs := Files(vs[1..]);
    if vs[0].kind == Regular {
      assert Files(vs) == [vs[0]] + fs;
      ItemsFirst(vs[0], fs, from);
      assert ([vs[0]] + fs)[1..] == fs;
    }
  }

  /** Nothing stops the walk from here on, starting with what is listed already. */
  predicate Fits(l: Listed, vs: seq<Visit>) {
    && AllAcceptable(vs)
    && |l.files| + |Files(vs)| <= MAX_FILES
    && l.totalSize + TotalSize(Files(vs)) <= MAX_TOTAL_SIZE
  }

  /** What is listed at the end. */
  function ListedAll(l: Listed, vs: seq<Visit>): Listed {
    Listed(l.files + Items(Files(vs), |l.files|), l.totalSize + TotalSize(Files(vs)))
  }

  /** The outcome of a walk from l. */
  predicate Faithful(l: Listed, vs: seq<Visit>, outcome: Result<Listed, WalkError>) {
    (outcome.Ok? <==> Fits(l, vs)) && (outcome.Ok? ==> outcome.value == ListedAll(l, vs))
  }

  lemma FitsStep(l: Listed, v: Visit, rest: seq<Visit>)
    requires forall i :: 0 <= i < |rest| ==> Plausible(rest[i])
    requires Acceptable(v)
    requires v.kind == Regular ==> |l.files| < MAX_FILES && l.totalSize + v.size <= MAX_TOTAL_SIZE
    ensures var next := if v.kind == Regular then Took(l, v) else l;
            && (Fits(l, [v] + rest) <==> Fits(next, rest))
            && ListedAll(l, [v] + rest) == ListedAll(next, rest)
  {
    hide Acceptable, Files, TotalSize, Items, Join;
    var vs := [v] + rest;
    assert vs[1..] == rest;
    FilesFirst(vs, |l.files|);
    assert AllAcceptable(vs) <==> Acceptable(v) && AllAcceptable(rest);
    if v.kind == Regular {
      var item := Item(Join(v.rel), v.size, |l.files|);
      assert l.files + ([item] + Items(Files(rest), |l.files| + 1))
             == (l.files + [item]) + Items(Files(rest), |l.files| + 1);
    }
  }

  /** A visit that is refused leaves no way for the whole to fit. */
  lemma RefusedDoesNotFit(l: Listed, v: Visit, rest: seq<Visit>)
    requires forall i :: 0 <= i < |rest| ==> Plausible(rest[i])
    requires Acceptable(v) ==>
               v.kind == Regular && !(|l.files| < MAX_FILES && l.totalSize + v.size <= MAX_TOTAL_SIZE)
    ensures !Fits(l, [v] + rest)
  {
    hide Acceptable, Files, TotalSize, Items, Join;
    var vs := [v] + rest;
    assert vs[1..] == rest && vs[0] == v;
    FilesPlausible(rest);
    TotalSizeNatural(Files(rest));
    FilesFirst(vs, |l.files|);
  }

  /** What is right of the rest is right of the whole. */
  lemma FaithfulStep(l: Listed, v: Visit, rest: seq<Visit>,
                    step: Result<Listed, WalkError>, tail: Result<Listed, WalkError>)
    requires forall i :: 0 <= i < |rest| ==> Plausible(rest[i])
    requires step.Ok? <==>
               Acceptable(v) && (v.kind == Regular ==> |l.files| < MAX_FILES && l.totalSize + v.size <= MAX_TOTAL_SIZE)
    requires step.Ok? ==> step.value == if v.kind == Regular then Took(l, v) else l
    requires step.Ok? ==> Faithful(step.value, rest, tail)
    ensures Faithful(l, [v] + rest, if step.Err? then step else tail)
  {
    hide Acceptable, Fits, ListedAll, Took;
    if step.Ok? {
      FitsStep(l, v, rest);
    } else {
      RefusedDoesNotFit(l, v, rest);
    }
  }

  /**
   The walk succeeds exactly when nothing failed, no path is suspicious and both limits hold; it
   lists every regular file in order, under its relative path, numbered from 0, with the true total.
   */
  lemma {:induction false} WalkIsFaithful(base: seq<string>, l: Listed, vs: seq<Visit>)
    requires base != [] && forall i :: 0 <= i < |vs| ==> Plausible(vs[i])
    requires |l.files| <= MAX_FILES && 0 <= l.totalSize <= MAX_TOTAL_SIZE
    ensures Faithful(l, vs, TakeAll(base, l, vs))
    decreases |vs|
  {
    if vs == [] {
      assert l.files + Items([], |l.files|) == l.files;
    } else {
      var v, rest := vs[0], vs[1..];
      TakePlausible(base, l, v);
      var step := Take(base, l, v);
      var tail := if step.Ok? then TakeAll(base, step.value, rest) else step;
      if step.Ok? {
        WalkIsFaithful(base, step.value, rest);
      }
      FaithfulStep(l, v, rest, step, tail);
      assert vs == [v] + rest;
    }
  }

  // The producer's tests and the download guard

  lemma ContainsChar(s: string, c: char)
    ensures Contains(s, [c]) <==> c in s
  {
    if c in s {
      var i :| 0 <= i < |s| && s[i] == c;
      assert [c] <= s[i..];
    }
    if i :| 0 <= i <= |s| && [c] <= s[i..] {
      assert s[i] == c;
    }
  }

  /** Behind the slash, s reads as t. */
  lemma AfterSlash(c: string, t: string, j: nat)
    requires j <= |t|
    ensures (c + "/" + t)[|c| + 1 + j..] == t[j..]
  {
  }

  lemma ContainsAfterSlashIf(c: string, t: string)
    requires ".." <= t || Contains(t, "/..")
    ensures Contains(c + "/" + t, "/..")
  {
    var s := c + "/" + t;
    if ".." <= t {
      assert s[|c|..] == "/" + t;
      assert "/.." <= s[|c|..];
    } else {
      var j :| 0 <= j <= |t| && "/.." <= t[j..];
      AfterSlash(c, t, j);
    }
  }

  lemma ContainsAfterSlashOnlyIf(c: string, t: string, i: nat)
    requires '/' !in c && i <= |c + "/" + t| && "/.." <= (c + "/" + t)[i..]
    ensures ".." <= t || Contains(t, "/..")
  {
    var s := c + "/" + t;
    assert s[i] == '/';
    assert forall k :: 0 <= k < |c| ==> s[k] == c[k];
    if i == |c| {
      assert s[i..][1] == t[0] && s[i..][2] == t[1];
    } else {
      AfterSlash(c, t, i - |c| - 1);
    }
  }

  lemma ContainsAfterSlash(c: string, t: string)
    requires '/' !in c
    ensures Contains(c + "/" + t, "/..") <==> ".." <= t || Contains(t, "/..")
  {
    if ".." <= t || Contains(t, "/..") {
      ContainsAfterSlashIf(c, t);
    }
    if i :| 0 <= i <= |c + "/" + t| && "/.." <= (c + "/" + t)[i..] {
      ContainsAfterSlashOnlyIf(c, t, i);
    }
  }

  lemma DotDotBeforeSlash(c: string, t: string)
    requires Name(c)
    ensures ".." <= c + "/" + t <==> ".." <= c
  {
    var s := c + "/" + t;
    assert s[|c|] == '/';
    assert forall i :: 0 <= i < |c| ==> s[i] == c[i];
  }

  lemma NoSlashInside(c: string)
    requires '/' !in c
    ensures !Contains(c, "/..")
  {
    assert forall i :: 0 <= i < |c| ==> c[i..][0] == c[i];
  }

  lemma {:induction false} DotDotInside(cs: seq<string>)
    requires cs != [] && Names(cs)
    ensures ".." <= Join(cs) || Contains(Join(cs), "/..") <==> exists i :: 0 <= i < |cs| && ".." <= cs[i]
    ensures ".." <= Join(cs) <==> ".." <= cs[0]
  {
    assert Name(cs[0]);
    if |cs| == 1 {
      NoSlashInside(cs[0]);
    } else {
      DotDotInside(cs[1..]);
      ContainsAfterSlash(cs[0], Join(cs[1..]));
      DotDotBeforeSlash(cs[0], Join(cs[1..]));
      assert forall i :: 1 <= i < |cs| ==> cs[i] == cs[1..][i - 1];
    }
  }

  lemma {:induction false} CharInJoin(cs: seq<string>, c: char)
    requires c != '/'
    ensures c in Join(cs) <==> exists i :: 0 <= i < |cs| && c in cs[i]
  {
    if |cs| > 1 {
      CharInJoin(cs[1..], c);
      assert forall i :: 1 <= i < |cs| ==> cs[i] == cs[1..][i - 1];
    }
  }

  /** What the walk refuses among the paths of a file system. */
  lemma ProducerRefuses(cs: seq<string>)
    requires cs != [] && Names(cs)
    ensures Suspicious(Join(cs)) <==> exists i :: 0 <= i < |cs| && (".." <= cs[i] || '\\' in cs[i])
  {
    DotDotInside(cs);
    ContainsChar(Join(cs), '\\');
    CharInJoin(cs, '\\');
    if '\\' in Join(cs) {
      var i :| 0 <= i < |cs| && '\\' in cs[i];
    }
  }

  /** What a visit is refused for, in the order of the tests. */
  lemma RefusedExactlyWhen(base: seq<string>, l: Listed, v: Visit)
    requires base != [] && Plausible(v) && 0 <= l.totalSize <= MAX_TOTAL_SIZE
    ensures Take(base, l, v) == Err(WalkFailed) <==> v.failed
    ensures Take(base, l, v) == Err(TooManyFiles) <==> !v.failed && v.kind == Regular && |l.files| >= 100
    ensures Take(base, l, v) == Err(TooLarge) <==>
              !v.failed && v.kind == Regular && |l.files| < 100 && l.totalSize + v.size > 100 * 1024 * 1024
    ensures Take(base, l, v) == Err(Traversal) <==>
              && !v.failed && v.kind == Regular && |l.files| < 100 && l.totalSize + v.size <= 100 * 1024 * 1024
              && exists i :: 0 <= i < |v.rel| && (".." <= v.rel[i] || '\\' in v.rel[i])
    ensures Take(base, l, v) != Err(OutsideOutput) && Take(base, l, v) != Err(EmptyArchive)
  {
    hide Suspicious, Join, Inside;
    if v.kind == Regular {
      InsideAlways(base, v.rel);
      ProducerRefuses(v.rel);
      AddKeeps(l.totalSize, v.size);
    }
  }

  /** The whole walk, from its visits: when it succeeds, and what it has then listed. */
  lemma WalkExactly(base: seq<string>, vs: seq<Visit>)
    requires base != [] && forall i :: 0 <= i < |vs| ==> Plausible(vs[i])
    ensures var r := TakeAll(base, Listed([], 0), vs);
            && (r.Ok? <==>
                  && (forall i :: 0 <= i < |vs| ==> !vs[i].failed)
                  && (forall i, j :: 0 <= i < |vs| && vs[i].kind == Regular && 0 <= j < |vs[i].rel| ==>
                        !(".." <= vs[i].rel[j]) && '\\' !in vs[i].rel[j])
                  && |Files(vs)| <= 100 && TotalSize(Files(vs)) <= 100 * 1024 * 1024)
            && (r.Ok? ==>
                  && |r.value.files| == |Files(vs)| && r.value.totalSize == TotalSize(Files(vs))
                  && forall k :: 0 <= k < |Files(vs)| ==>
                       r.value.files[k] == Item(Join(Files(vs)[k].rel), Files(vs)[k].size, k))
  {
    hide Suspicious, Join;
    WalkIsFaithful(base, Listed([], 0), vs);
    forall i | 0 <= i < |vs| && vs[i].kind == Regular
      ensures Suspicious(Join(vs[i].rel)) <==>
                exists j :: 0 <= j < |vs[i].rel| && (".." <= vs[i].rel[j] || '\\' in vs[i].rel[j])
    {
      ProducerRefuses(vs[i].rel);
    }
  }

  /** What the download refuses among them: less. */
  lemma ConsumerRefuses(cs: seq<string>)
    requires cs != [] && Names(cs) && forall i :: 0 <= i < |cs| ==> '\0' !in cs[i]
    ensures UnsafeName(Join(cs)) <==> exists i :: 0 <= i < |cs| && '\\' in cs[i]
  {
    CharInJoin(cs, '\\');
    CharInJoin(cs, '\0');
    SplitJoin(cs, '/');
    assert Name(cs[0]);
    assert Join(cs) != "" && Join(cs)[0] == cs[0][0];
  }

  /** Every name in a manifest passes the download guard, and opens the file that was listed. */
  lemma ManifestOpens(base: seq<string>, visits: seq<Visit>, k: nat)
    requires base != [] && Names(base)
    requires forall i :: 0 <= i < |visits| ==>
               && Plausible(visits[i])
               && forall j :: 0 <= j < |visits[i].rel| ==> '\0' !in visits[i].rel[j]
    requires TakeAll(base, Listed([], 0), visits).Ok?
    requires k < |TakeAll(base, Listed([], 0), visits).value.files|
    ensures var item := TakeAll(base, Listed([], 0), visits).value.files[k];
            && k < |Files(visits)|
            && item == Item(Join(Files(visits)[k].rel), Files(visits)[k].size, k)
            && OpenUnder(base, item.name) == Some(base + Files(visits)[k].rel)
  {
    WalkIsFaithful(base, Listed([], 0), visits);
    FilesPlausible(visits);
    var v := Files(visits)[k];
    var i := FileIsVisited(visits, k);
    assert Acceptable(visits[i]);
    ProducerRefuses(v.rel);
    ConsumerRefuses(v.rel);
    FirstTestDecides(base, Join(v.rel));
    SplitJoin(v.rel, '/');
    NonEmptyKeeps(v.rel);
  }

  lemma {:induction false} FileIsVisited(vs: seq<Visit>, k: nat) returns (i: nat)
    requires k < |Files(vs)|
    ensures i < |vs| && vs[i] == Files(vs)[k]
  {
    if vs[0].kind == Regular && k == 0 {
      i := 0;
    } else {
      i := FileIsVisited(vs[1..], if vs[0].kind == Regular then k - 1 else k);
      i := i + 1;
    }
  }

  lemma {:induction false} NonEmptyKeeps(cs: seq<string>)
    requires Names(cs)
    ensures NonEmpty(cs) == cs
  {
    if cs != [] {
      assert Name(cs[0]);
      NonEmptyKeeps(cs[1..]);
    }
  }
}
