/** module_tree_check: which source files of a crate its module declarations reach. */
module ModuleTree {
  import opened Host
  import opened ModuleScanner

  /** A path, component by component. */
  type Path = seq<string>

  /** A file system as the checker sees it: directories, files, what canonicalisation makes of a path
      where it succeeds, and the text of each readable file. */
  datatype FileSystem = FileSystem(
    dirs: set<Path>, files: set<Path>, canonical: map<Path, Path>, texts: map<Path, string>)
  {
    function Canon(p: Path): Path {
      if p in canonical then canonical[p] else p
    }

    /** resolve_mod: DIR/NAME.rs, else DIR/NAME/mod.rs. */
    function Resolve(from: Path, name: string): Option<Path> {
      if from == [] then None
      else
        var dir := from[..|from| - 1];
        if dir + [name + ".rs"] in files then Some(dir + [name + ".rs"])
        else if dir + [name, "mod.rs"] in files then Some(dir + [name, "mod.rs"])
        else None
    }

    predicate IsRustFile(p: Path) {
      p != [] && var name := p[|p| - 1]; |name| > 3 && name[|name| - 3..] == ".rs"
    }

    /** all_rs_files: the Rust files anywhere under a directory. */
    function RustFiles(dir: Path): set<Path> {
      set p | p in files && dir < p && IsRustFile(p)
    }
  }

  /** What a declaration in a file means: the file NAME.rs beside it, or, without one, NAME/mod.rs; nothing else. */
  lemma ResolveIff(fs: FileSystem, dir: Path, file: string, name: string, p: Path)
    ensures fs.Resolve(dir + [file], name) == Some(p) <==>
      p in fs.files && (p == dir + [name + ".rs"] || (dir + [name + ".rs"] !in fs.files && p == dir + [name, "mod.rs"]))
    ensures fs.Resolve(dir + [file], name) == None <==>
      dir + [name + ".rs"] !in fs.files && dir + [name, "mod.rs"] !in fs.files
  {
    assert (dir + [file])[..|dir|] == dir;
  }

  /** The files reported on: those under the directory, however deep, whose name ends in .rs and is longer. */
  lemma RustFilesIff(fs: FileSystem, dir: Path, inner: Path, name: string, ext: string)
    requires |ext| == 3
    ensures dir + inner + [name + ext] in fs.RustFiles(dir) <==>
      dir + inner + [name + ext] in fs.files && name != "" && ext == ".rs"
  {
    var p := dir + inner + [name + ext];
    assert p[|p| - 1] == name + ext && dir < p;
    assert (name + ext)[|name + ext| - 3..] == ext;
  }

  // ---- declarations ----

  predicate IsIdent(s: string) {
    s != "" && (forall i :: 0 <= i < |s| ==> IsWordChar(s[i])) && !('0' <= s[0] <= '9')
  }

  /** Brace depth before token i; an unmatched closing brace takes it below zero. */
  function Depth(tokens: seq<string>, i: nat): int
    requires i <= |tokens|
  {
    if i == 0 then 0
    else Depth(tokens, i - 1) + if tokens[i - 1] == "{" then 1 else if tokens[i - 1] == "}" then -1 else 0
  }

  /** A top-level `mod NAME ;` at token i. */
  predicate DeclaresAt(tokens: seq<string>, i: nat, name: string) {
    && i + 2 < |tokens| && tokens[i] == "mod" && Depth(tokens, i) == 0
    && tokens[i + 1] == name && IsIdent(name) && tokens[i + 2] == ";"
  }

  ghost predicate Declares(tokens: seq<string>, name: string) {
    exists i: nat :: DeclaresAt(tokens, i, name)
  }

  /** declared_mods: the names of the top-level declarations in a source text. */
  method DeclaredMods(src: string) returns (names: seq<string>)
    ensures forall name :: name in names <==> Declares(TokensIn(src), name)
  {
    var cleaned := StripComments(src);
    var tokens := Tokenize(cleaned);
    names := DeclaredIn(tokens);
  }

  method DeclaredIn(tokens: seq<string>) returns (names: seq<string>)
    ensures forall name :: name in names <==> Declares(tokens, name)
  {
    names := [];
    var depth := 0;
    var i := 0;
    while i < |tokens|
      invariant 0 <= i <= |tokens| && depth == Depth(tokens, i)
      invariant forall name :: name in names <==> exists k: nat :: k < i && DeclaresAt(tokens, k, name)
    {
      ghost var before := names;
      if tokens[i] == "{" {
        depth := depth + 1;
      } else if tokens[i] == "}" {
        depth := depth - 1;
      } else if tokens[i] == "mod" && depth == 0 {
        if i + 2 < |tokens| && IsIdent(tokens[i + 1]) && tokens[i + 2] == ";" {
          names := names + [tokens[i + 1]];
          assert DeclaresAt(tokens, i, tokens[i + 1]);
        }
      }
      forall name ensures name in names <==> exists k: nat :: k < i + 1 && DeclaresAt(tokens, k, name) {
        if DeclaresAt(tokens, i, name) {
          assert name in names;
        } else if name in names {
          assert name in before;
        }
      }
      i := i + 1;
    }
  }

  /** What comments say declares nothing: any text divides into code and comments, and declares what its code alone
      would. */
  lemma CommentsDeclareNothing(src: string, name: string) returns (pieces: seq<Piece>, tail: string)
    ensures src == Text(pieces) + tail && Divides(pieces, tail)
    ensures Declares(TokensIn(src), name) <==> Declares(Tokens(CodeOf(pieces), ""), name)
  {
    pieces, tail := EveryTextDivides(src);
    StripKeepsCode(pieces, tail);
  }

  function Quoted(name: string): string {
    "\"" + ("mod" + [' '] + (name + [';'] + "\""))
  }

  /** What a string literal says does declare: a quoted `mod NAME;` is scanned like a bare one. */
  lemma StringsDeclare(name: string)
    requires IsIdent(name)
    ensures Declares(TokensIn(Quoted(name)), name)
  {
    var inner, last := name + [';'] + "\"", "\"";
    NothingToStrip(Quoted(name));
    assert Quoted(name)[1..] == "mod" + [' '] + inner;
    ReadsUpTo("", "mod", ' ', inner);
    ReadsUpTo("", name, ';', last);
    assert Tokens(last, "") == [] by {
      assert last[1..] == "";
    }
    assert "" + "mod" == "mod" && "" + name == name;
    assert TokensIn(Quoted(name)) == ["mod", name, ";"];
    assert DeclaresAt(TokensIn(Quoted(name)), 0, name);
  }

  lemma {:induction false} NothingToStrip(src: string)
    requires '/' !in src
    ensures Strip(src, Code) == src
  {
    if src != "" {
      NothingToStrip(src[1..]);
    }
  }

  /** And a string literal that opens a block comment hides all that follows, up to the next end of one. */
  lemma StringsHide(hidden: string, name: string)
    requires forall i :: !EndsAt(hidden, i)
    ensures !Declares(TokensIn("\"" + ("/*\"" + hidden)), name)
  {
    var tail, pieces := "/*\"" + hidden, [Plain('"')];
    OpenIff(tail);
    forall i ensures !EndsAt(tail[2..], i) {
      if 0 < i < |tail[2..]| {
        assert tail[2..][i..] == hidden[i - 1..] && !EndsAt(hidden, i - 1);
      }
    }
    assert pieces[1..] == [] && Text(pieces[1..]) + tail == tail && Text(pieces) == "\"";
    assert Divides(pieces, tail) by {
      assert Divides([], tail);
    }
    StripKeepsCode(pieces, tail);
    NoTokens(pieces);
  }

  lemma NoTokens(pieces: seq<Piece>)
    requires pieces == [Plain('"')]
    ensures Tokens(CodeOf(pieces), "") == []
  {
    assert pieces[1..] == [] && CodeOf(pieces) == "\"" && CodeOf(pieces)[1..] == "";
  }

  // ---- reachability ----

  const ROOTS: seq<string> := ["lib.rs", "main.rs"]

  ghost predicate IsRoot(fs: FileSystem, src: Path, f: Path) {
    exists root :: root in ROOTS && src + [root] in fs.files && f == fs.Canon(src + [root])
  }

  /** File f declares a module that resolves to file g. */
  ghost predicate Links(fs: FileSystem, f: Path, g: Path) {
    f in fs.texts &&
    exists name :: Declares(TokensIn(fs.texts[f]), name) && fs.Resolve(f, name).Some? &&
        g == fs.Canon(fs.Resolve(f, name).value)
  }

  /** Files each declared by the one before, starting from a root. */
  ghost predicate IsChain(fs: FileSystem, src: Path, chain: seq<Path>) {
    && chain != [] && IsRoot(fs, src, chain[0])
    && forall i :: 0 <= i < |chain| - 1 ==> Links(fs, chain[i], chain[i + 1])
  }

  ghost predicate EndsIn(chain: seq<Path>, f: Path) {
    chain != [] && chain[|chain| - 1] == f
  }

  ghost predicate Reachable(fs: FileSystem, src: Path, f: Path) {
    exists chain :: IsChain(fs, src, chain) && EndsIn(chain, f)
  }

  /** A name that some file declares and no file answers to. */
  ghost predicate Dangles(fs: FileSystem, f: Path, name: string) {
    f in fs.texts && Declares(TokensIn(fs.texts[f]), name) && fs.Resolve(f, name) == None
  }

  lemma RootIsReachable(fs: FileSystem, src: Path, f: Path)
    requires IsRoot(fs, src, f)
    ensures Reachable(fs, src, f)
  {
    assert IsChain(fs, src, [f]) && EndsIn([f], f);
  }

  lemma LinkIsReachable(fs: FileSystem, src: Path, f: Path, g: Path)
    requires Reachable(fs, src, f) && Links(fs, f, g)
    ensures Reachable(fs, src, g)
  {
    var chain :| IsChain(fs, src, chain) && EndsIn(chain, f);
    var longer := chain + [g];
    forall i | 0 <= i < |longer| - 1 ensures Links(fs, longer[i], longer[i + 1]) {
      if i < |chain| - 1 {
        assert Links(fs, chain[i], chain[i + 1]);
      }
    }
    assert IsChain(fs, src, longer) && EndsIn(longer, g);
  }

  /** A set that holds the roots and is closed under declarations holds everything reachable. */
  lemma {:induction false} ClosedHoldsChain(fs: FileSystem, src: Path, s: set<Path>, chain: seq<Path>)
    requires forall f :: IsRoot(fs, src, f) ==> f in s
    requires forall f, g :: f in s && Links(fs, f, g) ==> g in s
    requires IsChain(fs, src, chain)
    ensures chain[|chain| - 1] in s
    decreases |chain|
  {
    if |chain| > 1 {
      var front := chain[..|chain| - 1];
      ClosedHoldsChain(fs, src, s, front);
      assert Links(fs, chain[|chain| - 2], chain[|chain| - 1]);
    }
  }

  ghost function Canonical(fs: FileSystem, queue: seq<Path>): set<Path> {
    set q | q in queue :: fs.Canon(q)
  }

  ghost function Universe(fs: FileSystem): set<Path> {
    set f | f in fs.files :: fs.Canon(f)
  }

  ghost predicate AllReachable(fs: FileSystem, src: Path, queue: seq<Path>) {
    forall q :: q in queue ==> q in fs.files && Reachable(fs, src, fs.Canon(q))
  }

  /** The worklist holds files that are reachable; with what is visited it covers the roots and all links
      out of visited files. */
  ghost predicate Frontier(fs: FileSystem, src: Path, visited: set<Path>, queue: seq<Path>) {
    && AllReachable(fs, src, queue)
    && (forall f :: f in visited ==> f in Universe(fs) && Reachable(fs, src, f))
    && (forall f :: IsRoot(fs, src, f) ==> f in visited + Canonical(fs, queue))
  }

  ghost predicate Covered(fs: FileSystem, visited: set<Path>, reached: set<Path>) {
    forall f, g :: f in visited && Links(fs, f, g) ==> g in reached
  }

  ghost predicate NamesDangling(fs: FileSystem, visited: set<Path>, unresolved: set<string>) {
    forall name :: name in unresolved <==> exists f :: f in visited && Dangles(fs, f, name)
  }

  ghost predicate Searching(fs: FileSystem, src: Path, visited: set<Path>, queue: seq<Path>, unresolved: set<string>) {
    && Frontier(fs, src, visited, queue)
    && Covered(fs, visited, visited + Canonical(fs, queue))
    && NamesDangling(fs, visited, unresolved)
  }

  lemma SkipSeen(fs: FileSystem, src: Path, visited: set<Path>, queue: seq<Path>, popped: Path, unresolved: set<string>)
    requires Searching(fs, src, visited, queue + [popped], unresolved) && fs.Canon(popped) in visited
    ensures Searching(fs, src, visited, queue, unresolved)
  {
    assert popped in queue + [popped];
    assert visited + Canonical(fs, queue + [popped]) == visited + Canonical(fs, queue);
  }

  /** Visiting one more file, once its links are pushed and its dangling names recorded. */
  lemma VisitOne(fs: FileSystem, src: Path, visited: set<Path>, queue: seq<Path>, popped: Path,
                 unresolved: set<string>, pushed: seq<Path>, names: set<string>)
    requires Searching(fs, src, visited, queue + [popped], unresolved)
    requires AllReachable(fs, src, pushed) && queue <= pushed
    requires forall g :: Links(fs, fs.Canon(popped), g) ==> g in Canonical(fs, pushed)
    requires forall name :: name in names <==> name in unresolved || Dangles(fs, fs.Canon(popped), name)
    ensures Searching(fs, src, visited + {fs.Canon(popped)}, pushed, names)
    ensures fs.Canon(popped) in Universe(fs)
  {
    var file := fs.Canon(popped);
    assert popped in queue + [popped];
    forall f | f in visited + Canonical(fs, queue + [popped]) ensures f in visited + {file} + Canonical(fs, pushed) {
      if f in Canonical(fs, queue + [popped]) {
        var q :| q in queue + [popped] && f == fs.Canon(q);
        assert q == popped || q in pushed;
      }
    }
    VisitAddsNames(fs, visited, file);
  }

  /** With nothing left to visit, what is visited is what is reachable. */
  lemma NothingLeft(fs: FileSystem, src: Path, visited: set<Path>, unresolved: set<string>)
    requires Searching(fs, src, visited, [], unresolved)
    ensures forall f :: f in visited <==> Reachable(fs, src, f)
  {
    assert Canonical(fs, []) == {};
    forall f ensures f in visited <==> Reachable(fs, src, f) {
      if Reachable(fs, src, f) {
        var chain :| IsChain(fs, src, chain) && EndsIn(chain, f);
        ClosedHoldsChain(fs, src, visited, chain);
      }
    }
  }

  /** reachable: pops a file, skips it if seen, and pushes what its declarations resolve to. The files not
      yet visited run out, and between two new visits the queue does. */
  method FindReachable(fs: FileSystem, src: Path) returns (visited: set<Path>, unresolved: set<string>)
    ensures forall f :: f in visited <==> Reachable(fs, src, f)
    ensures forall name :: name in unresolved <==> exists f :: Reachable(fs, src, f) && Dangles(fs, f, name)
  {
    visited, unresolved := {}, {};
    var queue := Roots(fs, src);
    while queue != []
      invariant Searching(fs, src, visited, queue, unresolved)
      decreases Universe(fs) - visited, |queue|
    {
      var popped := queue[|queue| - 1];
      assert queue == queue[..|queue| - 1] + [popped];
      queue := queue[..|queue| - 1];
      var file := fs.Canon(popped);
      if file in visited {
        SkipSeen(fs, src, visited, queue, popped, unresolved);
      } else {
        var pushed, names := queue, unresolved;
        if file in fs.texts {
          pushed, names := PushDeclared(fs, src, file, queue, unresolved);
        } else {
          NoLinksWithoutText(fs, file);
        }
        VisitOne(fs, src, visited, queue, popped, unresolved, pushed, names);
        assert file !in Universe(fs) - (visited + {file});
        visited, queue, unresolved := visited + {file}, pushed, names;
      }
    }
    NothingLeft(fs, src, visited, unresolved);
  }

  lemma NoLinksWithoutText(fs: FileSystem, file: Path)
    requires file !in fs.texts
    ensures forall g :: !Links(fs, file, g)
    ensures forall name :: !Dangles(fs, file, name)
  {
  }

  /** What dangles from one more visited file. */
  lemma VisitAddsNames(fs: FileSystem, visited: set<Path>, file: Path)
    ensures forall name :: (exists f :: f in visited + {file} && Dangles(fs, f, name))
                      <==> (exists f :: f in visited && Dangles(fs, f, name)) || Dangles(fs, file, name)
  {
    forall name | Dangles(fs, file, name) ensures exists f :: f in visited + {file} && Dangles(fs, f, name) {
      assert file in visited + {file};
    }
  }

  method Roots(fs: FileSystem, src: Path) returns (queue: seq<Path>)
    ensures Frontier(fs, src, {}, queue)
  {
    queue := [];
    for i := 0 to |ROOTS|
      invariant forall q :: q in queue ==> q in fs.files && IsRoot(fs, src, fs.Canon(q))
      invariant forall k :: 0 <= k < i && src + [ROOTS[k]] in fs.files ==> src + [ROOTS[k]] in queue
    {
      var p := src + [ROOTS[i]];
      if p in fs.files {
        assert ROOTS[i] in ROOTS;
        assert IsRoot(fs, src, fs.Canon(p));
        queue := queue + [p];
      }
    }
    forall q | q in queue ensures Reachable(fs, src, fs.Canon(q)) {
      RootIsReachable(fs, src, fs.Canon(q));
    }
  }

  lemma PushKeepsReachable(fs: FileSystem, src: Path, file: Path, queue: seq<Path>, name: string)
    requires AllReachable(fs, src, queue) && Reachable(fs, src, file)
    requires file in fs.texts && Declares(TokensIn(fs.texts[file]), name) && fs.Resolve(file, name).Some?
    ensures AllReachable(fs, src, queue + [fs.Resolve(file, name).value])
  {
    var target := fs.Resolve(file, name).value;
    assert Links(fs, file, fs.Canon(target));
    LinkIsReachable(fs, src, file, fs.Canon(target));
  }

  /** The first i declared names: those that resolve are pushed, the others recorded. */
  ghost predicate Handled(fs: FileSystem, file: Path, declared: seq<string>, i: nat, pushed: seq<Path>,
                          unresolved: set<string>, names: set<string>)
  {
    && i <= |declared|
    && (forall k :: 0 <= k < i && fs.Resolve(file, declared[k]).Some? ==> fs.Resolve(file, declared[k]).value in pushed)
    && (forall name :: name in names <==>
          name in unresolved || (name in declared[..i] && fs.Resolve(file, name) == None))
  }

  lemma HandleOne(fs: FileSystem, file: Path, declared: seq<string>, i: nat, pushed: seq<Path>,
                  unresolved: set<string>, names: set<string>)
    requires i < |declared| && Handled(fs, file, declared, i, pushed, unresolved, names)
    ensures var target := fs.Resolve(file, declared[i]);
      if target.Some? then Handled(fs, file, declared, i + 1, pushed + [target.value], unresolved, names)
      else Handled(fs, file, declared, i + 1, pushed, unresolved, names + {declared[i]})
  {
    assert declared[..i + 1] == declared[..i] + [declared[i]];
  }

  /** Handling all declared names covers every link out of the file and records all that dangles. */
  lemma HandledCovers(fs: FileSystem, file: Path, declared: seq<string>, pushed: seq<Path>,
                      unresolved: set<string>, names: set<string>)
    requires file in fs.texts && forall name :: name in declared <==> Declares(TokensIn(fs.texts[file]), name)
    requires Handled(fs, file, declared, |declared|, pushed, unresolved, names)
    ensures forall g :: Links(fs, file, g) ==> g in Canonical(fs, pushed)
    ensures forall name :: name in names <==> name in unresolved || Dangles(fs, file, name)
  {
    assert declared[..|declared|] == declared;
    forall g | Links(fs, file, g) ensures g in Canonical(fs, pushed) {
      var name :| Declares(TokensIn(fs.texts[file]), name) && fs.Resolve(file, name).Some? &&
          g == fs.Canon(fs.Resolve(file, name).value);
      assert name in declared;
      assert fs.Resolve(file, name).value in pushed;
    }
  }

  /** Pushes the targets of a file's declarations and records the names that resolve to nothing. */
  method PushDeclared(fs: FileSystem, src: Path, file: Path, queue: seq<Path>, unresolved: set<string>)
    returns (pushed: seq<Path>, names: set<string>)
    requires file in fs.texts && Reachable(fs, src, file)
    requires AllReachable(fs, src, queue)
    ensures AllReachable(fs, src, pushed)
    ensures queue <= pushed
    ensures forall g :: Links(fs, file, g) ==> g in Canonical(fs, pushed)
    ensures forall name :: name in names <==> name in unresolved || Dangles(fs, file, name)
  {
    pushed, names := queue, unresolved;
    var declared := DeclaredMods(fs.texts[file]);
    for i := 0 to |declared|
      invariant AllReachable(fs, src, pushed) && queue <= pushed
      invariant Handled(fs, file, declared, i, pushed, unresolved, names)
    {
      HandleOne(fs, file, declared, i, pushed, unresolved, names);
      var name := declared[i];
      assert name in declared;
      var target := fs.Resolve(file, name);
      if target.Some? {
        PushKeepsReachable(fs, src, file, pushed, name);
        pushed := pushed + [target.value];
      } else {
        names := names + {name};
      }
    }
    HandledCovers(fs, file, declared, pushed, unresolved, names);
  }

  // ---- the report ----

  datatype Report = Report(unreachable: set<Path>, unresolved: set<string>)
  {
    predicate IsClean() {
      unreachable == {} && unresolved == {}
    }
  }

  /** The report lists exactly the Rust files no chain of declarations reaches and exactly the names that
      dangle in reached files. */
  ghost predicate Accurate(fs: FileSystem, src: Path, report: Report) {
    && (forall f :: f in report.unreachable <==> f in fs.RustFiles(src) && !Reachable(fs, src, fs.Canon(f)))
    && (forall name :: name in report.unresolved <==> exists f :: Reachable(fs, src, f) && Dangles(fs, f, name))
  }

  /** find_unreachable_in_crate: the report is empty when there is no src directory. */
  method FindUnreachableInCrate(fs: FileSystem, crateDir: Path) returns (report: Report)
    ensures if crateDir + ["src"] in fs.dirs then Accurate(fs, crateDir + ["src"], report) else report == Report({}, {})
  {
    var src := crateDir + ["src"];
    if src !in fs.dirs {
      return Report({}, {});
    }
    var visited, unresolved := FindReachable(fs, src);
    var unreachable := {};
    var rest := fs.RustFiles(src);
    while rest != {}
      invariant rest <= fs.RustFiles(src)
      invariant forall f :: f in unreachable <==> f in fs.RustFiles(src) - rest && fs.Canon(f) !in visited
      decreases rest
    {
      var file :| file in rest;
      rest := rest - {file};
      if fs.Canon(file) !in visited {
        unreachable := unreachable + {file};
      }
    }
    return Report(unreachable, unresolved);
  }

  /** What a clean report means: every Rust file under src is reached from a root, and every declaration in
      a reached file names a file. */
  lemma CleanMeansWhole(fs: FileSystem, src: Path, report: Report)
    requires Accurate(fs, src, report)
    ensures report.IsClean() <==>
      && (forall f :: f in fs.RustFiles(src) ==> Reachable(fs, src, fs.Canon(f)))
      && (forall f, name :: Reachable(fs, src, f) ==> !Dangles(fs, f, name))
  {
    if report.IsClean() {
      forall f, name | Reachable(fs, src, f) ensures !Dangles(fs, f, name) {
        assert name !in report.unresolved;
      }
      forall f | f in fs.RustFiles(src) ensures Reachable(fs, src, fs.Canon(f)) {
        assert f !in report.unreachable;
      }
    } else if report.unreachable != {} {
      var f :| f in report.unreachable;
    } else {
      var name :| name in report.unresolved;
    }
  }
}
