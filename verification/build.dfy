/**
 * The build script build.py: collecting the C sources under a directory,
 * composing the compiler argument vector, the four build recipes and the
 * interactive menu.
 *
 * The directory walk is an input (a sequence of directory entries in walk
 * order) and the commands the script would hand to the operating system are
 * returned instead of run.  A Python `assert` that fails aborts the script;
 * the model reports that as an aborted run or a `Fail` result.
 */
module Build {
  import opened CTypes

  /** One `(root, dirs, files)` triple produced by `os.walk`; `dirs` plays no role. */
  datatype WalkEntry = WalkEntry(root: string, files: seq<string>)

  predicate EndsWith(s: string, suffix: string)
  {
    |suffix| <= |s| && s[|s| - |suffix|..] == suffix
  }

  /** POSIX `os.path.join(a, b)` for two components. */
  function PathJoin(a: string, b: string): (p: string)
    ensures |b| > 0 && b[0] == '/' ==> p == b
  {
    if |b| > 0 && b[0] == '/' then b
    else if a == [] || a[|a| - 1] == '/' then a + b
    else a + "/" + b
  }

  /** `f` ends with at least one of the extensions. */
  predicate Matches(f: string, exts: seq<string>)
  {
    exists k :: 0 <= k < |exts| && EndsWith(f, exts[k])
  }

  /** The joined paths of the matching files of one directory, in order. */
  function MatchedIn(root: string, files: seq<string>, exts: seq<string>): seq<string>
  {
    if files == [] then []
    else
      var last := files[|files| - 1];
      MatchedIn(root, files[..|files| - 1], exts)
        + (if Matches(last, exts) then [PathJoin(root, last)] else [])
  }

  /** Every path `get_all_in` adds to its set, in the order it adds them. */
  function Matched(walk: seq<WalkEntry>, exts: seq<string>): seq<string>
  {
    if walk == [] then []
    else
      var last := walk[|walk| - 1];
      Matched(walk[..|walk| - 1], exts) + MatchedIn(last.root, last.files, exts)
  }

  predicate NoDup<T(==)>(s: seq<T>)
  {
    forall i, j :: 0 <= i < j < |s| ==> s[i] != s[j]
  }

  /** `s` lists every element of `S` exactly once and nothing else. */
  ghost predicate Enumerates(s: seq<string>, S: set<string>)
  {
    NoDup(s) && (forall x :: x in s <==> x in S)
  }

  /** The set of paths collected from a walk: one per matching file. */
  ghost function Collected(walk: seq<WalkEntry>, exts: seq<string>): set<string>
  {
    set e, f | e in walk && f in e.files && Matches(f, exts) :: PathJoin(e.root, f)
  }

  lemma {:induction false} MatchedInMembers(root: string, files: seq<string>, exts: seq<string>, x: string)
    ensures x in MatchedIn(root, files, exts) <==>
      exists f :: f in files && Matches(f, exts) && x == PathJoin(root, f)
  {
    if files != [] {
      var n := |files| - 1;
      var init := files[..n];
      MatchedInMembers(root, init, exts, x);
      assert files == init + [files[n]];
    }
  }

  /** A path is added by `get_all_in` iff it joins the root of some entry with a matching file. */
  lemma {:induction false} MatchedMembers(walk: seq<WalkEntry>, exts: seq<string>, x: string)
    ensures x in Matched(walk, exts) <==> x in Collected(walk, exts)
  {
    if walk != [] {
      var n := |walk| - 1;
      var init := walk[..n];
      MatchedMembers(init, exts, x);
      MatchedInMembers(walk[n].root, walk[n].files, exts, x);
      assert walk == init + [walk[n]];
      if x in Collected(walk, exts) {
        var e, f :| e in walk && f in e.files && Matches(f, exts) && x == PathJoin(e.root, f);
        if e != walk[n] {
          assert x in Collected(init, exts);
        }
      }
    }
  }

  lemma {:induction false} MatchedInPrefix(root: string, files: seq<string>, exts: seq<string>, j: nat)
    requires j <= |files|
    ensures MatchedIn(root, files[..j], exts) <= MatchedIn(root, files, exts)
    decreases |files| - j
  {
    if j < |files| {
      MatchedInPrefix(root, files, exts, j + 1);
      assert files[..j + 1][..j] == files[..j];
    } else {
      assert files[..j] == files;
    }
  }

  lemma {:induction false} MatchedPrefix(walk: seq<WalkEntry>, exts: seq<string>, i: nat)
    requires i <= |walk|
    ensures Matched(walk[..i], exts) <= Matched(walk, exts)
    decreases |walk| - i
  {
    if i < |walk| {
      MatchedPrefix(walk, exts, i + 1);
      assert walk[..i + 1][..i] == walk[..i];
    } else {
      assert walk[..i] == walk;
    }
  }

  lemma NoDupPrefix(s: seq<string>, t: seq<string>)
    requires s <= t && NoDup(t)
    ensures NoDup(s)
  {
  }

  /**
   * `get_all_in(path, extensions)`: walks the entries, adds `join(root, f)` for
   * every file whose name ends with one of the extensions (stopping at the
   * first matching extension), and fails the `assert` if a path comes twice.
   */
  method GetAllIn(walk: seq<WalkEntry>, exts: seq<string>) returns (r: Result<set<string>>)
    ensures r.Ok? <==> NoDup(Matched(walk, exts))
    ensures r.Ok? ==> r.value == Collected(walk, exts)
  {
    var outSet: set<string> := {};
    ghost var added: seq<string> := [];
    var i := 0;
    while i < |walk|
      invariant 0 <= i <= |walk|
      invariant added == Matched(walk[..i], exts)
      invariant NoDup(added)
      invariant forall x :: x in outSet <==> x in added
    {
      assert walk[..i + 1][..i] == walk[..i];
      var ok;
      outSet, added, ok := AddFiles(walk[i].root, walk[i].files, exts, outSet, added);
      if !ok {
        MatchedPrefix(walk, exts, i + 1);
        if NoDup(Matched(walk, exts)) {
          NoDupPrefix(Matched(walk[..i + 1], exts), Matched(walk, exts));
        }
        return Fail("AssertionError");
      }
      i := i + 1;
    }
    assert walk[..i] == walk;
    forall x
      ensures x in outSet <==> x in Collected(walk, exts)
    {
      MatchedMembers(walk, exts, x);
    }
    return Ok(outSet);
  }

  /**
   * The `for f in files` loop of `get_all_in` for one directory: each
   * matching file's joined path goes into the set, and a path already
   * there fails the `assert`.
   */
  method AddFiles(root: string, files: seq<string>, exts: seq<string>, outSet: set<string>, ghost before: seq<string>)
    returns (outSet': set<string>, ghost added: seq<string>, ok: bool)
    requires NoDup(before) && forall x :: x in outSet <==> x in before
    ensures ok <==> NoDup(before + MatchedIn(root, files, exts))
    ensures ok ==> added == before + MatchedIn(root, files, exts)
    ensures ok ==> forall x :: x in outSet' <==> x in added
  {
    outSet', added := outSet, before;
    var j := 0;
    while j < |files|
      invariant 0 <= j <= |files|
      invariant added == before + MatchedIn(root, files[..j], exts)
      invariant NoDup(added)
      invariant forall x :: x in outSet' <==> x in added
    {
      var f := files[j];
      var found := FirstExtension(f, exts);
      MatchedInStep(root, files, exts, j);
      if found {
        var full := PathJoin(root, f);
        if full in outSet' {
          DuplicateFails(root, files, exts, j, before, added);
          return outSet', added, false;
        }
        outSet' := outSet' + {full};
        added := added + [full];
      }
      j := j + 1;
    }
    assert files[..j] == files;
    return outSet', added, true;
  }

  /** The extension loop of `get_all_in` for one file: it stops at the first extension the name ends with. */
  method FirstExtension(f: string, exts: seq<string>) returns (found: bool)
    ensures found <==> Matches(f, exts)
  {
    var k := 0;
    found := false;
    while k < |exts| && !found
      invariant 0 <= k <= |exts|
      invariant !found ==> forall l :: 0 <= l < k ==> !EndsWith(f, exts[l])
      invariant found ==> Matches(f, exts)
      decreases |exts| - k, if found then 0 else 1
    {
      if EndsWith(f, exts[k]) {
        found := true;
      } else {
        k := k + 1;
      }
    }
  }

  /** One more file of a directory adds its joined path exactly when it matches. */
  lemma MatchedInStep(root: string, files: seq<string>, exts: seq<string>, j: nat)
    requires j < |files|
    ensures MatchedIn(root, files[..j + 1], exts)
      == MatchedIn(root, files[..j], exts) + (if Matches(files[j], exts) then [PathJoin(root, files[j])] else [])
  {
    assert files[..j + 1][..j] == files[..j];
  }

  /** A matching file whose path was already added makes the paths of the directory repeat one. */
  lemma DuplicateFails(root: string, files: seq<string>, exts: seq<string>, j: nat, before: seq<string>, added: seq<string>)
    requires j < |files| && Matches(files[j], exts)
    requires added == before + MatchedIn(root, files[..j], exts)
    requires PathJoin(root, files[j]) in added
    ensures !NoDup(before + MatchedIn(root, files, exts))
  {
    var full := PathJoin(root, files[j]);
    MatchedInStep(root, files, exts, j);
    var next := added + [full];
    MatchedInPrefix(root, files, exts, j + 1);
    assert next <= before + MatchedIn(root, files, exts);
    var d :| 0 <= d < |added| && added[d] == full;
    assert next[d] == next[|added|];
    if NoDup(before + MatchedIn(root, files, exts)) {
      NoDupPrefix(next, before + MatchedIn(root, files, exts));
    }
  }


  /** The exclusion list resolved against the source directory. */
  ghost function Excluded(srcPath: string, exclude: set<string>): set<string>
  {
    set e | e in exclude :: PathJoin(srcPath, e)
  }

  /** The loop that joins each exclusion onto the source directory. */
  method ResolveExcludes(srcPath: string, exclude: set<string>) returns (actual: set<string>)
    ensures actual == Excluded(srcPath, exclude)
  {
    actual := {};
    var rest := exclude;
    while rest != {}
      invariant rest <= exclude
      invariant actual == Excluded(srcPath, exclude - rest)
      decreases |rest|
    {
      var excl :| excl in rest;
      assert exclude - (rest - {excl}) == (exclude - rest) + {excl};
      actual := actual + {PathJoin(srcPath, excl)};
      rest := rest - {excl};
    }
    assert exclude - rest == exclude;
  }

  /** `[cc] + flags + ["-o" + out]`, the last part only when `out` is truthy. */
  function Head(cc: string, flags: seq<string>, out: Option<string>): (h: seq<string>)
    ensures |h| == 1 + |flags| + (if out.Some? && out.value != "" then 1 else 0)
    ensures h[0] == cc && h[1..1 + |flags|] == flags
    ensures out.Some? && out.value != "" ==> h[|h| - 1] == "-o" + out.value
  {
    [cc] + flags + (if out.Some? && out.value != "" then ["-o" + out.value] else [])
  }

  /**
   * `build_all_except`: the compiler vector `Head(...)` followed by every
   * collected source that is not one of the resolved exclusions, each once,
   * in the set's iteration order (left unspecified here).
   */
  method BuildAllExcept(cc: string, srcPath: string, exclude: set<string>, exts: seq<string>,
                        flags: seq<string>, out: Option<string>, walk: seq<WalkEntry>)
    returns (r: Result<seq<string>>)
    ensures r.Ok? <==> NoDup(Matched(walk, exts))
    ensures r.Ok? ==> |r.value| >= |Head(cc, flags, out)|
    ensures r.Ok? ==> r.value[..|Head(cc, flags, out)|] == Head(cc, flags, out)
    ensures r.Ok? ==> Enumerates(r.value[|Head(cc, flags, out)|..],
                                 Collected(walk, exts) - Excluded(srcPath, exclude))
  {
    var actualExcludes := ResolveExcludes(srcPath, exclude);

    var collected := GetAllIn(walk, exts);
    if collected.Fail? {
      return Fail(collected.msg);
    }
    var srcFiles := collected.value;

    var args := [cc];
    args := args + flags;
    if out.Some? && out.value != "" {
      args := args + ["-o" + out.value];
    }
    assert args == Head(cc, flags, out);
    args := AppendSources(args, srcFiles, actualExcludes);
    return Ok(args);
  }

  /** The `for src_f in src_files` loop: appends every file that is not excluded. */
  method AppendSources(head: seq<string>, srcFiles: set<string>, excludes: set<string>)
    returns (args: seq<string>)
    ensures |args| >= |head| && args[..|head|] == head
    ensures Enumerates(args[|head|..], srcFiles - excludes)
  {
    args := head;
    ghost var added: seq<string> := [];
    var todo := srcFiles;
    while todo != {}
      invariant todo <= srcFiles
      invariant args == head + added
      invariant Enumerates(added, (srcFiles - todo) - excludes)
      decreases |todo|
    {
      var srcF :| srcF in todo;
      TodoStep(srcFiles, todo, excludes, srcF);
      if srcF !in excludes {
        EnumeratesAppend(added, (srcFiles - todo) - excludes, srcF);
        args := args + [srcF];
        added := added + [srcF];
      }
      todo := todo - {srcF};
    }
    assert args[|head|..] == added;
  }

  /** Taking one file off the to-do set adds it to the done part unless it is excluded. */
  lemma TodoStep(srcFiles: set<string>, todo: set<string>, excludes: set<string>, x: string)
    requires x in todo
    ensures (srcFiles - (todo - {x})) - excludes
      == ((srcFiles - todo) - excludes) + (if x in excludes || x !in srcFiles then {} else {x})
    ensures x !in (srcFiles - todo) - excludes
  {
  }

  lemma EnumeratesAppend(s: seq<string>, S: set<string>, x: string)
    requires Enumerates(s, S) && x !in S
    ensures Enumerates(s + [x], S + {x})
  {
  }

  /** What running one of the recipes does: the commands it issues, and whether an assertion aborted it. */
  datatype Run = Run(commands: seq<seq<string>>, aborted: bool)

  const Compiler: string := "cc"
  const Extensions: seq<string> := [".c"]

  const ReleaseFlags: seq<string> := ["-DNO_INCLUDE_ASSERTS", "-DNO_TESTS", "-O2", "-std=c99"]
  const DebugFlags: seq<string> :=
    ["-DDEBUG", "-Wall", "-Wpedantic", "-g", "-std=c99",
     "-fsanitize=address", "-fsanitize=undefined", "-fsanitize=leak"]
  const LibFlags: seq<string> := ["-O2", "-std=c99", "-c"]
  const MinimalLibFlags: seq<string> := ["-O2", "-std=c99", "-c", "-DMINIMAL_BUILD"]
  const MinimalExcludes: set<string> :=
    {"main.c", "io.c", "libs/datastructures_lib.c", "libs/io_lib.c", "libs/debug_lib.c",
     "libs/common_lib.c", "libs/math_lib.c", "libs/string_lib.c", "libs/modules_lib.c"}
  const CopyHeader: seq<string> := ["cp", "-t", "./", "../src/interpreter.h"]

  /** Standalone interpreter: everything under `src`, linked into `out/interpreter.out` with `-lm`. */
  method BuildRelease(srcWalk: seq<WalkEntry>) returns (run: Run)
    ensures run.aborted <==> !NoDup(Matched(srcWalk, Extensions))
    ensures run.aborted ==> run.commands == []
    ensures !run.aborted ==> |run.commands| == 1
    ensures !run.aborted ==> CompileCommand(run.commands[0], ReleaseFlags,
      Some("out/interpreter.out"), true, Collected(srcWalk, Extensions))
  {
    run := Compile("src", {}, ReleaseFlags, Some("out/interpreter.out"), true, srcWalk);
    assert Excluded("src", {}) == {};
  }

  /** Debug build: everything under `src` with sanitizers, linked into `out/a.out` with `-lm`. */
  method BuildDebug(srcWalk: seq<WalkEntry>) returns (run: Run)
    ensures run.aborted <==> !NoDup(Matched(srcWalk, Extensions))
    ensures run.aborted ==> run.commands == []
    ensures !run.aborted ==> |run.commands| == 1
    ensures !run.aborted ==> CompileCommand(run.commands[0], DebugFlags,
      Some("out/a.out"), true, Collected(srcWalk, Extensions))
  {
    run := Compile("src", {}, DebugFlags, Some("out/a.out"), true, srcWalk);
    assert Excluded("src", {}) == {};
  }

  /**
   * The shape of one compiler command: `cc`, the flags, the optional `-o`
   * token, each of `sources` once, and `-lm` at the end when `linkMath`.
   */
  ghost predicate CompileCommand(cmd: seq<string>, flags: seq<string>, out: Option<string>,
                                 linkMath: bool, sources: set<string>)
  {
    var h := Head(Compiler, flags, out);
    var tail := if linkMath then ["-lm"] else [];
    |cmd| >= |h| + |tail| && cmd[..|h|] == h && cmd[|cmd| - |tail|..] == tail
      && Enumerates(cmd[|h|..|cmd| - |tail|], sources)
  }

  /** The compile step shared by all recipes. */
  method Compile(srcPath: string, exclude: set<string>, flags: seq<string>, out: Option<string>,
                 linkMath: bool, srcWalk: seq<WalkEntry>) returns (run: Run)
    ensures run.aborted <==> !NoDup(Matched(srcWalk, Extensions))
    ensures run.aborted ==> run.commands == []
    ensures !run.aborted ==> |run.commands| == 1
    ensures !run.aborted ==> CompileCommand(run.commands[0], flags, out, linkMath,
      Collected(srcWalk, Extensions) - Excluded(srcPath, exclude))
  {
    var r := BuildAllExcept(Compiler, srcPath, exclude, Extensions, flags, out, srcWalk);
    if r.Fail? {
      return Run([], true);
    }
    var commands := r.value;
    if linkMath {
      commands := commands + ["-lm"];
    }
    var h := Head(Compiler, flags, out);
    assert commands[..|h|] == r.value[..|h|];
    assert commands[|h|..|commands| - (if linkMath then 1 else 0)] == r.value[|h|..];
    return Run([commands], false);
  }

  /**
   * The archive step of the library recipes: `ar rcs lib.ar` with every
   * object file found under `./` after compiling, then the header copy.
   */
  method Archive(objWalk: seq<WalkEntry>) returns (run: Run)
    ensures run.aborted <==> !NoDup(Matched(objWalk, [".o"]))
    ensures run.aborted ==> run.commands == []
    ensures !run.aborted ==> |run.commands| == 2 && run.commands[1] == CopyHeader
    ensures !run.aborted ==> |run.commands[0]| >= 3 && run.commands[0][..3] == ["ar", "rcs", "lib.ar"]
    ensures !run.aborted ==> Enumerates(run.commands[0][3..], Collected(objWalk, [".o"]))
  {
    var libFiles := GetAllIn(objWalk, [".o"]);
    if libFiles.Fail? {
      return Run([], true);
    }
    var files := SetToSeq(libFiles.value);
    var commands := ["ar", "rcs", "lib.ar"] + files;
    assert commands[3..] == files;
    return Run([commands, CopyHeader], false);
  }

  /** `list(s)`: the elements of a set in some order, each once. */
  method SetToSeq(s: set<string>) returns (r: seq<string>)
    ensures Enumerates(r, s)
  {
    r := [];
    var todo := s;
    while todo != {}
      invariant todo <= s
      invariant Enumerates(r, s - todo)
      decreases |todo|
    {
      var x :| x in todo;
      r := r + [x];
      todo := todo - {x};
    }
  }

  /**
   * Full library, run from inside `out`: every source under `../src` except
   * `main.c`, compiled with `-c` and no `-o` (still followed by `-lm`), then
   * archived.  Compiler exit codes are not checked, so the archive step always
   * follows a compile that was issued.
   */
  method BuildLib(srcWalk: seq<WalkEntry>, objWalk: seq<WalkEntry>) returns (run: Run)
    ensures !NoDup(Matched(srcWalk, Extensions)) ==> run == Run([], true)
    ensures NoDup(Matched(srcWalk, Extensions)) ==>
      1 <= |run.commands| && CompileCommand(run.commands[0], LibFlags, None, true,
        Collected(srcWalk, Extensions) - Excluded("../src", {"main.c"}))
    ensures NoDup(Matched(srcWalk, Extensions)) ==>
      (run.aborted <==> !NoDup(Matched(objWalk, [".o"])))
    ensures !run.aborted ==>
      (|run.commands| == 3 && run.commands[2] == CopyHeader &&
       |run.commands[1]| >= 3 && run.commands[1][..3] == ["ar", "rcs", "lib.ar"])
    ensures !run.aborted ==> Enumerates(run.commands[1][3..], Collected(objWalk, [".o"]))
  {
    var compile := Compile("../src", {"main.c"}, LibFlags, None, true, srcWalk);
    if compile.aborted {
      return compile;
    }
    var archive := Archive(objWalk);
    run := Run(compile.commands + archive.commands, archive.aborted);
  }

  /**
   * Minimal library: as the full library but without the nine I/O and data
   * structure sources, with `-DMINIMAL_BUILD` and without `-lm`.
   */
  method BuildMinimalLib(srcWalk: seq<WalkEntry>, objWalk: seq<WalkEntry>) returns (run: Run)
    ensures !NoDup(Matched(srcWalk, Extensions)) ==> run == Run([], true)
    ensures NoDup(Matched(srcWalk, Extensions)) ==>
      1 <= |run.commands| && CompileCommand(run.commands[0], MinimalLibFlags, None, false,
        Collected(srcWalk, Extensions) - Excluded("../src", MinimalExcludes))
    ensures NoDup(Matched(srcWalk, Extensions)) ==>
      (run.aborted <==> !NoDup(Matched(objWalk, [".o"])))
    ensures !run.aborted ==>
      (|run.commands| == 3 && run.commands[2] == CopyHeader &&
       |run.commands[1]| >= 3 && run.commands[1][..3] == ["ar", "rcs", "lib.ar"])
    ensures !run.aborted ==> Enumerates(run.commands[1][3..], Collected(objWalk, [".o"]))
  {
    var compile := Compile("../src", MinimalExcludes, MinimalLibFlags, None, false, srcWalk);
    if compile.aborted {
      return compile;
    }
    var archive := Archive(objWalk);
    run := Run(compile.commands + archive.commands, archive.aborted);
  }

  /**
   * Exclusions are resolved against the source root only: excluding `main.c`
   * under a root does not remove a `main.c` found in any other directory.
   */
  lemma ExclusionIsRootRelative(srcPath: string, root: string, name: string)
    requires root != srcPath
    requires |srcPath| > 0 && srcPath[|srcPath| - 1] != '/'
    requires |root| > 0 && root[|root| - 1] != '/'
    requires |name| > 0 && name[0] != '/' && '/' !in name
    ensures PathJoin(root, name) !in Excluded(srcPath, {name})
  {
    var p, q := PathJoin(root, name), PathJoin(srcPath, name);
    assert p == root + "/" + name && q == srcPath + "/" + name;
    if |root| == |srcPath| {
      assert p[..|root|] == root;
      assert q[..|root|] == srcPath;
    } else {
      assert |p| != |q|;
    }
  }

  /** What a line typed at the menu selects. */
  datatype Variant = Release | Debug | Lib | MinimalLib
  datatype Choice = Select(v: Variant) | Quit | Reprompt

  /** ASCII `str.lower()` (non-ASCII letters never lower-case to `q`, `u`, `i` or `t`). */
  function Lower(s: string): (r: string)
    ensures |r| == |s|
    ensures forall i :: 0 <= i < |s| ==> r[i] == if 'A' <= s[i] <= 'Z' then (s[i] as int + 32) as char else s[i]
  {
    if s == [] then []
    else [if 'A' <= s[0] <= 'Z' then (s[0] as int + 32) as char else s[0]] + Lower(s[1..])
  }

  function Choose(line: string): (c: Choice)
    ensures c == Select(Release) <==> line == "1"
    ensures c == Select(Debug) <==> line == "2"
    ensures c == Select(Lib) <==> line == "3"
    ensures c == Select(MinimalLib) <==> line == "4"
    ensures c == Quit <==> Lower(line) in {"q", "quit"}
  {
    if line == "1" then Select(Release)
    else if line == "2" then Select(Debug)
    else if line == "3" then Select(Lib)
    else if line == "4" then Select(MinimalLib)
    else if Lower(line) in {"q", "quit"} then Quit
    else Reprompt
  }

  /** Every capitalisation of `q` and `quit` quits, and nothing else does. */
  lemma QuitAnyCase(line: string)
    ensures Choose(line) == Quit <==>
      (|line| == 1 && line[0] in "qQ") ||
      (|line| == 4 && line[0] in "qQ" && line[1] in "uU" && line[2] in "iI" && line[3] in "tT")
  {
    var l := Lower(line);
    if |line| == 1 {
      assert l == "q" <==> line[0] in "qQ";
    } else if |line| == 4 {
      assert l == "quit" <==> (l[0] == 'q' && l[1] == 'u' && l[2] == 'i' && l[3] == 't');
    }
  }

  /** How the script ends. */
  datatype Outcome = Ran(v: Variant) | Quitted | EndOfInput

  /**
   * The top level: `build.py d` runs the debug build at once; otherwise the menu
   * reads lines until one selects a recipe or quits.  `consumed` is the number
   * of lines read; running out of input ends the script (Python's `EOFError`).
   */
  method Dispatch(argv: seq<string>, lines: seq<string>) returns (o: Outcome, consumed: nat)
    ensures |argv| == 2 && argv[1] == "d" ==> o == Ran(Debug) && consumed == 0
    ensures !(|argv| == 2 && argv[1] == "d") ==>
      consumed <= |lines| &&
      (forall i :: 0 <= i < consumed - 1 ==> Choose(lines[i]) == Reprompt) &&
      (o == EndOfInput <==> (consumed == |lines| && forall i :: 0 <= i < |lines| ==> Choose(lines[i]) == Reprompt)) &&
      (o != EndOfInput ==>
         (0 < consumed &&
          (o == Quitted <==> Choose(lines[consumed - 1]) == Quit) &&
          (o.Ran? ==> Choose(lines[consumed - 1]) == Select(o.v))))
  {
    if |argv| == 2 && argv[1] == "d" {
      return Ran(Debug), 0;
    }
    consumed := 0;
    while true
      invariant consumed <= |lines|
      invariant forall i :: 0 <= i < consumed ==> Choose(lines[i]) == Reprompt
      decreases |lines| - consumed
    {
      if consumed == |lines| {
        return EndOfInput, consumed;
      }
      var line := lines[consumed];
      consumed := consumed + 1;
      var c := Choose(line);
      if c.Select? {
        return Ran(c.v), consumed;
      } else if c == Quit {
        return Quitted, consumed;
      }
    }
  }

  /** Runs the recipe the menu selected on the given walks. */
  method RunVariant(v: Variant, srcWalk: seq<WalkEntry>, objWalk: seq<WalkEntry>) returns (run: Run)
    ensures v == Release || v == Debug ==> (run.aborted <==> !NoDup(Matched(srcWalk, Extensions)))
    ensures v == Release && !run.aborted ==>
      |run.commands| == 1 && CompileCommand(run.commands[0], ReleaseFlags, Some("out/interpreter.out"), true, Collected(srcWalk, Extensions))
    ensures v == Debug && !run.aborted ==>
      |run.commands| == 1 && CompileCommand(run.commands[0], DebugFlags, Some("out/a.out"), true, Collected(srcWalk, Extensions))
    ensures (v == Lib || v == MinimalLib) && !NoDup(Matched(srcWalk, Extensions)) ==> run == Run([], true)
    ensures (v == Lib || v == MinimalLib) && NoDup(Matched(srcWalk, Extensions)) ==>
      (run.aborted <==> !NoDup(Matched(objWalk, [".o"])))
    ensures v == Lib && NoDup(Matched(srcWalk, Extensions)) ==>
      1 <= |run.commands| && CompileCommand(run.commands[0], LibFlags, None, true,
        Collected(srcWalk, Extensions) - Excluded("../src", {"main.c"}))
    ensures v == MinimalLib && NoDup(Matched(srcWalk, Extensions)) ==>
      1 <= |run.commands| && CompileCommand(run.commands[0], MinimalLibFlags, None, false,
        Collected(srcWalk, Extensions) - Excluded("../src", MinimalExcludes))
    ensures !run.aborted && (v == Lib || v == MinimalLib) ==>
      (|run.commands| == 3 && run.commands[2] == CopyHeader &&
       |run.commands[1]| >= 3 && run.commands[1][..3] == ["ar", "rcs", "lib.ar"])
    ensures !run.aborted && (v == Lib || v == MinimalLib) ==>
      Enumerates(run.commands[1][3..], Collected(objWalk, [".o"]))
  {
    match v
    case Release => run := BuildRelease(srcWalk);
    case Debug => run := BuildDebug(srcWalk);
    case Lib => run := BuildLib(srcWalk, objWalk);
    case MinimalLib => run := BuildMinimalLib(srcWalk, objWalk);
  }
}
