/**
 Building modules into one output tree, running the C compiler only where the emitted C
 or the shared header changed or the extension is older than its C.
 */
module BuildCache {
  import opened Ir

  /** A text file and when it was last written. */
  datatype File = File(text: string, time: nat)

  /** An extension: the C and the header it was compiled from, and when. */
  datatype Extension = Extension(code: string, header: string, time: nat)

  /** The output tree, by module: distinct modules have distinct paths. */
  datatype Tree = Tree(header: Option<File>, sources: map<string, File>, extensions: map<string, Extension>, clock: nat)

  /**
   One build and what meets it: whether the IR verifies, the C it emits, the header of this
   compiler, whether the C compiler succeeds and, where it fails, whether it takes the old
   extension with it, whether the file system says when files were written, and how far the
   clock moves before each of the three writes.
   */
  datatype Request = Request(
    name: string,
    verifies: bool,
    code: string,
    header: string,
    compiles: bool,
    removes: bool,
    timed: bool,
    ticks: (nat, nat, nat))

  datatype Result = Result(tree: Tree, ok: bool, compiled: bool)

  const EMPTY := Tree(None, map[], map[], 0)

  predicate Holds(file: Option<File>, text: string) {
    file.Some? && file.value.text == text
  }

  function SourceOf(t: Tree, name: string): Option<File> {
    if name in t.sources then Some(t.sources[name]) else None
  }

  function WithHeader(t: Tree, text: string, tick: nat): Tree {
    if Holds(t.header, text) then t else t.(header := Some(File(text, t.clock + tick)), clock := t.clock + tick)
  }

  function WithSource(t: Tree, name: string, text: string, tick: nat): (r: Tree)
    ensures name in r.sources && r.sources[name].text == text
  {
    if Holds(SourceOf(t, name), text) then t
    else t.(sources := t.sources[name := File(text, t.clock + tick)], clock := t.clock + tick)
  }

  /** Both files can be dated, and the extension is not the older. */
  predicate IsNewer(t: Tree, name: string, timed: bool) {
    timed && name in t.extensions && name in t.sources && t.extensions[name].time >= t.sources[name].time
  }

  function Compiled(t: Tree, r: Request): Tree
    requires r.name in t.sources && t.header.Some?
  {
    if r.compiles
    then t.(extensions := t.extensions[r.name := Extension(t.sources[r.name].text, t.header.value.text, t.clock + r.ticks.2)],
            clock := t.clock + r.ticks.2)
    else if r.removes then t.(extensions := t.extensions - {r.name}) else t
  }

  /** The guard of the compile, over the files as the build finds them. */
  predicate Recompiles(t: Tree, r: Request) {
    !Holds(t.header, r.header) || !Holds(SourceOf(t, r.name), r.code) || !IsNewer(t, r.name, r.timed)
  }

  /** What one build makes of the tree. */
  function Build(t: Tree, r: Request): (built: Result)
    ensures built.compiled <==> r.verifies && Recompiles(t, r)
  {
    if !r.verifies then Result(t, false, false)
    else
      var h := WithHeader(t, r.header, r.ticks.0);
      var s := WithSource(h, r.name, r.code, r.ticks.1);
      if !Holds(t.header, r.header) || !Holds(SourceOf(t, r.name), r.code) || !IsNewer(s, r.name, r.timed)
      then Result(Compiled(s, r), r.compiles, true)
      else Result(s, true, false)
  }

  /** A build succeeds where the IR verifies and the compiler, if it is run, succeeds. */
  lemma BuildSucceeds(t: Tree, r: Request)
    ensures Build(t, r).ok <==> r.verifies && (Recompiles(t, r) ==> r.compiles)
    ensures Recompiles(t, r) <==>
            || t.header.None? || t.header.value.text != r.header
            || r.name !in t.sources || t.sources[r.name].text != r.code
            || !r.timed || r.name !in t.extensions || t.extensions[r.name].time < t.sources[r.name].time
  {
  }

  /** A build touches the files of its own module and the header, and nothing where it is refused. */
  lemma BuildTouches(t: Tree, r: Request, other: string)
    requires other != r.name
    ensures var u := Build(t, r).tree;
            && (other in u.sources <==> other in t.sources) && (other in t.sources ==> u.sources[other] == t.sources[other])
            && (other in u.extensions <==> other in t.extensions)
            && (other in t.extensions ==> u.extensions[other] == t.extensions[other])
    ensures !r.verifies ==> Build(t, r).tree == t
    ensures r.verifies ==>
              var u := Build(t, r).tree;
              && Holds(u.header, r.header) && r.name in u.sources && u.sources[r.name].text == r.code
              && (Build(t, r).compiled && !r.compiles && !r.removes && r.name in t.extensions ==>
                    r.name in u.extensions && u.extensions[r.name] == t.extensions[r.name])
  {
  }

  /** The tree the builds share, changed in place. */
  class OutputTree {
    var header: Option<File>
    var sources: map<string, File>
    var extensions: map<string, Extension>
    var clock: nat

    function Files(): Tree
      reads this
    {
      Tree(header, sources, extensions, clock)
    }

    constructor ()
      ensures Files() == EMPTY
    {
      header, sources, extensions, clock := None, map[], map[], 0;
    }

    /** Bring the header to `text`, touching it only for that. */
    method WriteHeader(text: string, tick: nat) returns (changed: bool)
      modifies this`header, this`clock
      ensures Files() == WithHeader(old(Files()), text, tick) && changed == !Holds(old(header), text)
    {
      if header.Some? && header.value.text == text {
        return false;
      }
      clock := clock + tick;
      header := Some(File(text, clock));
      changed := true;
    }

    /** The same for a module's C. */
    method WriteSource(name: string, text: string, tick: nat) returns (changed: bool)
      modifies this`sources, this`clock
      ensures Files() == WithSource(old(Files()), name, text, tick)
      ensures changed == !Holds(SourceOf(old(Files()), name), text)
    {
      if name in sources && sources[name].text == text {
        return false;
      }
      clock := clock + tick;
      sources := sources[name := File(text, clock)];
      changed := true;
    }

    method Compile(r: Request) returns (ok: bool)
      requires r.name in sources && header.Some?
      modifies this`extensions, this`clock
      ensures Files() == Compiled(old(Files()), r) && ok == r.compiles
    {
      if r.compiles {
        clock := clock + r.ticks.2;
        extensions := extensions[r.name := Extension(sources[r.name].text, header.value.text, clock)];
      } else if r.removes {
        extensions := extensions - {r.name};
      }
      ok := r.compiles;
    }

    method BuildModule(r: Request) returns (ok: bool)
      modifies this
      ensures Files() == Build(old(Files()), r).tree && ok == Build(old(Files()), r).ok
    {
      if !r.verifies {
        return false;
      }
      var headerChanged := WriteHeader(r.header, r.ticks.0);
      var sourceChanged := WriteSource(r.name, r.code, r.ticks.1);
      if headerChanged || sourceChanged || !IsNewer(Files(), r.name, r.timed) {
        ok := Compile(r);
        return;
      }
      ok := true;
    }
  }

  // ----- runs -----

  function Run(requests: seq<Request>): Tree {
    if requests == [] then EMPTY else Build(Run(requests[..|requests| - 1]), requests[|requests| - 1]).tree
  }

  /** The files are no newer than the clock, and an extension has its C and its header. */
  ghost predicate Past(t: Tree) {
    && (t.header.Some? ==> t.header.value.time <= t.clock)
    && (forall n :: n in t.sources ==> t.sources[n].time <= t.clock)
    && (forall n :: n in t.extensions ==> t.extensions[n].time <= t.clock && n in t.sources && t.header.Some?)
  }

  /** An extension newer than its C was compiled from it, and so for the header. */
  ghost predicate NewerIsRight(t: Tree) {
    forall n :: n in t.extensions && n in t.sources && t.header.Some? ==>
      && (t.extensions[n].time > t.sources[n].time ==> t.extensions[n].code == t.sources[n].text)
      && (t.extensions[n].time > t.header.value.time ==> t.extensions[n].header == t.header.value.text)
  }

  /** The same where the times are equal, for the C. */
  ghost predicate LevelCodeIsRight(t: Tree) {
    forall n :: n in t.extensions && n in t.sources ==>
      (t.extensions[n].time >= t.sources[n].time ==> t.extensions[n].code == t.sources[n].text)
  }

  /** The same where the times are equal, for the header. */
  ghost predicate LevelHeaderIsRight(t: Tree) {
    forall n :: n in t.extensions && t.header.Some? ==>
      (t.extensions[n].time >= t.header.value.time ==> t.extensions[n].header == t.header.value.text)
  }

  /** What every move keeps: for the header and the C where the clock moved before they were written. */
  ghost predicate Keeps(t: Tree, u: Tree, headerTick: nat, codeTick: nat) {
    Past(t) && NewerIsRight(t) ==>
      && Past(u) && NewerIsRight(u)
      && (codeTick > 0 && LevelCodeIsRight(t) ==> LevelCodeIsRight(u))
      && (headerTick > 0 && LevelHeaderIsRight(t) ==> LevelHeaderIsRight(u))
  }

  lemma HeaderKeeps(t: Tree, r: Request)
    ensures Keeps(t, WithHeader(t, r.header, r.ticks.0), r.ticks.0, r.ticks.1)
  {
  }

  lemma SourceKeeps(t: Tree, r: Request)
    ensures Keeps(t, WithSource(t, r.name, r.code, r.ticks.1), r.ticks.0, r.ticks.1)
  {
  }

  lemma CompiledKeeps(t: Tree, r: Request)
    requires r.name in t.sources && t.header.Some?
    ensures Keeps(t, Compiled(t, r), r.ticks.0, r.ticks.1)
  {
  }

  lemma BuildKeeps(t: Tree, r: Request)
    ensures Keeps(t, Build(t, r).tree, r.ticks.0, r.ticks.1)
  {
    hide Past, NewerIsRight, LevelCodeIsRight, LevelHeaderIsRight;
    if r.verifies {
      var h := WithHeader(t, r.header, r.ticks.0);
      HeaderKeeps(t, r);
      var s := WithSource(h, r.name, r.code, r.ticks.1);
      SourceKeeps(h, r);
      CompiledKeeps(s, r);
    }
  }

  /** On any clock at all, what is newer was compiled from what it is newer than. */
  lemma {:induction false} RunPast(requests: seq<Request>)
    ensures Past(Run(requests)) && NewerIsRight(Run(requests))
    ensures (forall i :: 0 <= i < |requests| ==> requests[i].ticks.1 > 0) ==> LevelCodeIsRight(Run(requests))
    ensures (forall i :: 0 <= i < |requests| ==> requests[i].ticks.0 > 0) ==> LevelHeaderIsRight(Run(requests))
  {
    hide Past, NewerIsRight, LevelCodeIsRight, LevelHeaderIsRight;
    if requests == [] {
      EmptyPast();
    } else {
      RunPast(requests[..|requests| - 1]);
      BuildKeeps(Run(requests[..|requests| - 1]), requests[|requests| - 1]);
    }
  }

  lemma EmptyPast()
    ensures Past(EMPTY) && NewerIsRight(EMPTY) && LevelCodeIsRight(EMPTY) && LevelHeaderIsRight(EMPTY)
  {
  }

  // ----- the C -----

  /** The extension of `r` is compiled from the C of `r`, which is what the source file holds. */
  predicate FromCode(t: Tree, r: Request) {
    && r.name in t.extensions && t.extensions[r.name].code == r.code
    && Holds(SourceOf(t, r.name), r.code)
  }

  /** The extension is newer than its C, and not only as new. */
  predicate StrictlyNewer(t: Tree, name: string) {
    name in t.extensions && name in t.sources && t.extensions[name].time > t.sources[name].time
  }

  /**
   After any builds, failed ones among them, a build that succeeds leaves an extension
   compiled from its C, where the clock moves before each write of C.
   */
  lemma SucceedsFromCurrentCode(requests: seq<Request>, r: Request)
    requires forall i :: 0 <= i < |requests| ==> requests[i].ticks.1 > 0
    requires Build(Run(requests), r).ok
    ensures FromCode(Build(Run(requests), r).tree, r)
  {
    RunPast(requests);
  }

  /** Some build got as far as writing `code` for `name`. */
  ghost predicate Wrote(requests: seq<Request>, name: string, code: string) {
    exists i :: 0 <= i < |requests| && requests[i].verifies && requests[i].name == name && requests[i].code == code
  }

  /** Once `code` is written for `name` nothing else is. */
  ghost predicate CodeStays(requests: seq<Request>, name: string, code: string) {
    forall i, j | 0 <= i < j < |requests| && requests[i].verifies && requests[j].verifies ::
      requests[i].name == name == requests[j].name && requests[i].code == code ==> requests[j].code == code
  }

  /** Where `code` has not been written nothing is compiled from it, and where it has its extension is newer. */
  ghost predicate CodeAges(t: Tree, name: string, code: string, wrote: bool) {
    && (wrote ==> Holds(SourceOf(t, name), code))
    && (name in t.extensions && t.extensions[name].code == code ==> wrote && StrictlyNewer(t, name))
  }

  lemma SourceAges(t: Tree, r: Request, name: string, code: string, wrote: bool)
    requires CodeAges(t, name, code, wrote) && (wrote && r.name == name ==> r.code == code)
    ensures CodeAges(WithSource(t, r.name, r.code, r.ticks.1), name, code, wrote || (r.name == name && r.code == code))
  {
  }

  lemma CompiledCodeAges(t: Tree, r: Request, name: string, code: string, wrote: bool)
    requires Past(t) && r.ticks.2 > 0 && CodeAges(t, name, code, wrote)
    requires r.name in t.sources && t.header.Some? && (r.name == name && t.sources[name].text == code ==> wrote)
    ensures CodeAges(Compiled(t, r), name, code, wrote)
  {
  }

  lemma BuildCodeAges(t: Tree, r: Request, name: string, code: string, wrote: bool)
    requires Past(t) && NewerIsRight(t) && r.ticks.2 > 0 && CodeAges(t, name, code, wrote)
    requires wrote && r.verifies && r.name == name ==> r.code == code
    ensures CodeAges(Build(t, r).tree, name, code, wrote || (r.verifies && r.name == name && r.code == code))
  {
    if r.verifies {
      var h := WithHeader(t, r.header, r.ticks.0);
      var s := WithSource(h, r.name, r.code, r.ticks.1);
      assert CodeAges(h, name, code, wrote);
      SourceAges(h, r, name, code, wrote);
      assert Past(s) by {
        hide Past, NewerIsRight;
        HeaderKeeps(t, r);
        SourceKeeps(h, r);
      }
      CompiledCodeAges(s, r, name, code, wrote || (r.name == name && r.code == code));
    }
  }

  lemma {:induction false} RunCodeAges(requests: seq<Request>, name: string, code: string)
    requires forall i :: 0 <= i < |requests| ==> requests[i].ticks.2 > 0
    requires CodeStays(requests, name, code)
    ensures CodeAges(Run(requests), name, code, Wrote(requests, name, code))
  {
    if requests != [] {
      var before, last := requests[..|requests| - 1], requests[|requests| - 1];
      RunCodeAges(before, name, code);
      RunPast(before);
      BuildCodeAges(Run(before), last, name, code, Wrote(before, name, code));
    }
  }

  /**
   On any clock, a build that succeeds is right about its C where it compiled, or kept an
   extension strictly newer than its C; and where compiling takes time and no C comes back,
   only there.
   */
  lemma CodeSeenExactlyWhen(requests: seq<Request>, r: Request)
    requires Build(Run(requests), r).ok
    ensures Recompiles(Run(requests), r) || StrictlyNewer(Run(requests), r.name) ==>
              FromCode(Build(Run(requests), r).tree, r)
    ensures (forall i :: 0 <= i < |requests| ==> requests[i].ticks.2 > 0) && CodeStays(requests, r.name, r.code) ==>
              (FromCode(Build(Run(requests), r).tree, r) <==>
               Recompiles(Run(requests), r) || StrictlyNewer(Run(requests), r.name))
  {
    hide Run, CodeStays, Wrote;
    RunPast(requests);
    if (forall i :: 0 <= i < |requests| ==> requests[i].ticks.2 > 0) && CodeStays(requests, r.name, r.code) {
      RunCodeAges(requests, r.name, r.code);
    }
  }

  /** Where the clock may stand still at a write of C, an extension can pass for newer than C it was never compiled from. */
  lemma StillClockGoesStale(name: string, header: string, earlier: string, later: string)
    requires earlier != later
    ensures var still := Request(name, true, later, header, false, false, true, (1, 0, 1));
            var t := Run([still.(code := earlier, compiles := true), still]);
            var after := Build(t, still);
            after.ok && !Recompiles(t, still) && after.tree.extensions[name].code == earlier
  {
    var still := Request(name, true, later, header, false, false, true, (1, 0, 1));
    var first := still.(code := earlier, compiles := true);
    assert [first, still][..1] == [first] && [first][..0] == [];
    var t1 := Build(EMPTY, first).tree;
    var t2 := Build(t1, still).tree;
    assert Run([first]) == t1;
    assert Run([first, still]) == t2;
  }

  // ----- the header -----

  /** Everything in the tree was built with the header `h`. */
  ghost predicate OneHeader(t: Tree, h: string) {
    && (t.header.Some? ==> t.header.value.text == h)
    && forall n :: n in t.extensions ==> t.extensions[n].header == h
  }

  lemma {:induction false} RunOneHeader(requests: seq<Request>, h: string)
    requires forall i :: 0 <= i < |requests| ==> requests[i].header == h
    ensures OneHeader(Run(requests), h)
  {
    if requests != [] { RunOneHeader(requests[..|requests| - 1], h); }
  }

  /** With one header throughout, the extension is compiled from the current header too. */
  lemma SucceedsFromCurrentHeader(requests: seq<Request>, r: Request)
    requires forall i :: 0 <= i < |requests| ==> requests[i].header == r.header
    ensures var after := Build(Run(requests), r);
            after.ok ==> r.name in after.tree.extensions && after.tree.extensions[r.name].header == r.header
                         && Holds(after.tree.header, r.header)
  {
    RunOneHeader(requests, r.header);
    assert requests == (requests + [r])[..|requests|];
  }

  /** The extension of `name` is at least as new as the header: the test the build does not make. */
  predicate NewerThanHeader(t: Tree, name: string) {
    name in t.extensions && t.header.Some? && t.extensions[name].time >= t.header.value.time
  }

  predicate FromHeader(t: Tree, r: Request) {
    && r.name in t.extensions && t.extensions[r.name].header == r.header
    && Holds(t.header, r.header)
  }

  /** Some build got as far as writing the header `h`. */
  ghost predicate Used(requests: seq<Request>, h: string) {
    exists i :: 0 <= i < |requests| && requests[i].verifies && requests[i].header == h
  }

  /** Once `h` is built with nothing else is. */
  ghost predicate HeaderStays(requests: seq<Request>, h: string) {
    forall i, j | 0 <= i < j < |requests| && requests[i].verifies && requests[j].verifies ::
      requests[i].header == h ==> requests[j].header == h
  }

  /** Where `h` has not been used nothing is compiled with it, and where it has those that are are no older. */
  ghost predicate HeaderAges(t: Tree, h: string, used: bool) {
    && (used ==> Holds(t.header, h))
    && forall n :: n in t.extensions && t.extensions[n].header == h ==> used && NewerThanHeader(t, n)
  }

  lemma BuildHeaderAges(t: Tree, r: Request, h: string, used: bool)
    requires Past(t) && HeaderAges(t, h, used) && (used && r.verifies ==> r.header == h)
    ensures HeaderAges(Build(t, r).tree, h, used || (r.verifies && r.header == h))
  {
    if r.verifies {
      var written := WithHeader(t, r.header, r.ticks.0);
      assert Past(written) && HeaderAges(written, h, used || r.header == h);
    }
  }

  lemma {:induction false} RunHeaderAges(requests: seq<Request>, h: string)
    requires HeaderStays(requests, h)
    ensures HeaderAges(Run(requests), h, Used(requests, h))
  {
    if requests != [] {
      var before, last := requests[..|requests| - 1], requests[|requests| - 1];
      RunHeaderAges(before, h);
      RunPast(before);
      BuildHeaderAges(Run(before), last, h, Used(before, h));
    }
  }

  /**
   Where the clock moves before each write of the header, a build that succeeds is right
   about its header where it compiled, or kept an extension at least as new as the header;
   and where that header does not come back, only there.
   */
  lemma HeaderSeenExactlyWhen(requests: seq<Request>, r: Request)
    requires forall i :: 0 <= i < |requests| ==> requests[i].ticks.0 > 0
    requires Build(Run(requests), r).ok
    ensures Recompiles(Run(requests), r) || NewerThanHeader(Run(requests), r.name) ==>
              FromHeader(Build(Run(requests), r).tree, r)
    ensures HeaderStays(requests, r.header) ==>
              (FromHeader(Build(Run(requests), r).tree, r) <==>
               Recompiles(Run(requests), r) || NewerThanHeader(Run(requests), r.name))
  {
    hide Run, HeaderStays, Used;
    RunPast(requests);
    if HeaderStays(requests, r.header) {
      RunHeaderAges(requests, r.header);
    }
  }

  function Plain(name: string, header: string): Request {
    Request(name, true, "", header, true, false, true, (1, 1, 1))
  }

  /** Only the build that rewrites the header sees it change: the next module keeps its old extension. */
  lemma HeaderMissed(a: string, b: string, earlier: string, later: string)
    requires a != b && earlier != later
    ensures var t := Run([Plain(a, earlier), Plain(b, earlier), Plain(a, later)]);
            var after := Build(t, Plain(b, later));
            after.ok && after.tree.extensions[b].header == earlier && Holds(after.tree.header, later)
  {
    var r1, r2, r3 := Plain(a, earlier), Plain(b, earlier), Plain(a, later);
    assert [r1, r2, r3][..2] == [r1, r2] && [r1, r2][..1] == [r1] && [r1][..0] == [];
    var t1 := Build(EMPTY, r1).tree;
    var t2 := Build(t1, r2).tree;
    var t3 := Build(t2, r3).tree;
    assert Run([r1]) == t1;
    assert Run([r1, r2]) == t2;
    assert Run([r1, r2, r3]) == t3;
  }

  // ----- an unchanged build is free -----

  /** Building again what was just built runs no compiler and changes no file. */
  lemma RebuildIsFree(requests: seq<Request>, r: Request, again: Request)
    requires Build(Run(requests), r).ok && again.verifies && again.timed
    requires again.name == r.name && again.code == r.code && again.header == r.header
    ensures var t := Build(Run(requests), r).tree;
            Build(t, again).ok && !Build(t, again).compiled && Build(t, again).tree == t
  {
    hide Run;
    RunPast(requests);
  }
}
