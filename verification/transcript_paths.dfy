/**
 * Several transcripts read forward at once, their offsets kept by file name, and so shared by
 * all paths that end in the same one.
 */
module TranscriptPaths {
  import opened Events
  import opened Utf8
  import opened Transcript

  // --- names -------------------------------------------------------------------------------------

  function WithoutSlashes(path: string): (p: string)
    ensures p == "" || p[|p| - 1] != '/'
    ensures '/' !in path ==> p == path
  {
    if path != "" && path[|path| - 1] == '/' then WithoutSlashes(path[..|path| - 1]) else path
  }

  function LastPart(path: string): (name: string)
    ensures '/' !in name
    ensures '/' !in path ==> name == path
  {
    if path == "" || path[|path| - 1] == '/' then ""
    else LastPart(path[..|path| - 1]) + [path[|path| - 1]]
  }

  /** The part after the last slash, slashes at the very end aside. */
  function Basename(path: string): (name: string)
    ensures '/' !in name
    ensures '/' !in path ==> name == path
  {
    LastPart(WithoutSlashes(path))
  }

  lemma {:induction false} SlashesDrop(path: string, slashes: string)
    requires (path == "" || path[|path| - 1] != '/') && forall c :: c in slashes ==> c == '/'
    ensures WithoutSlashes(path + slashes) == path
  {
    if slashes == "" {
      assert path + slashes == path;
    } else {
      var n := |slashes| - 1;
      assert slashes[n] in slashes && (path + slashes)[|path + slashes| - 1] == slashes[n];
      assert (path + slashes)[..|path + slashes| - 1] == path + slashes[..n];
      assert forall c :: c in slashes[..n] ==> c in slashes;
      SlashesDrop(path, slashes[..n]);
    }
  }

  lemma {:induction false} LastPartEnds(front: string, name: string)
    requires '/' !in name && (front == "" || front[|front| - 1] == '/')
    ensures LastPart(front + name) == name
  {
    if name == "" {
      assert front + name == front;
    } else {
      var n := |name| - 1;
      assert name[n] in name && name == name[..n] + [name[n]];
      assert (front + name)[..|front + name| - 1] == front + name[..n];
      LastPartEnds(front, name[..n]);
    }
  }

  /** A file goes by its name, whatever directory it is in and however many slashes follow. */
  lemma BasenameOfFile(dir: string, name: string, slashes: string)
    requires name != "" && '/' !in name && forall c :: c in slashes ==> c == '/'
    ensures Basename(name + slashes) == name && Basename(dir + "/" + name + slashes) == name
  {
    assert name[|name| - 1] in name;
    SlashesDrop(name, slashes);
    SlashesDrop(dir + "/" + name, slashes);
    LastPartEnds("", name);
    assert "" + name == name;
    LastPartEnds(dir + "/", name);
  }

  function OffsetOf(offsets: map<string, nat>, path: string): nat {
    if Basename(path) in offsets then offsets[Basename(path)] else 0
  }

  // --- runs --------------------------------------------------------------------------------------

  /** The files, the stored offsets, and per path the slices of the boundaries that succeeded. */
  datatype Transcripts = Transcripts(
    files: map<string, seq<Text>>, offsets: map<string, nat>,
    slices: map<string, seq<Text>>)

  datatype PathStep = Grew(path: string, more: seq<Text>) | Read(path: string) | Failed(path: string)

  const NOTHING_READ: Transcripts := Transcripts(map[], map[], map[])

  function At(entries: map<string, seq<Text>>, path: string): seq<Text> {
    if path in entries then entries[path] else []
  }

  function PathNext(t: Transcripts, step: PathStep): Transcripts {
    match step
    case Grew(path, more) => if AreLines(more) then t.(files := t.files[path := At(t.files, path) + more]) else t
    case Read(path) =>
      var slice := SliceAt(Bytes(At(t.files, path)), OffsetOf(t.offsets, path));
      if slice.None? then t
      else
        t.(offsets := t.offsets[Basename(path) := slice.value.newOffset],
           slices := t.slices[path := At(t.slices, path) + [slice.value.raw]])
    case Failed(_) => t
  }

  function PathRun(t: Transcripts, steps: seq<PathStep>): Transcripts
    decreases |steps|
  {
    if steps == [] then t else PathRun(PathNext(t, steps[0]), steps[1..])
  }

  /** One path as if it were alone, with whatever offset its name has. */
  function View(t: Transcripts, path: string): World {
    World(At(t.files, path), OffsetOf(t.offsets, path), At(t.slices, path))
  }

  ghost predicate TiledAt(t: Transcripts, path: string) {
    exists cuts :: Tiles(View(t, path), cuts)
  }

  function Own(step: PathStep): Step {
    match step
    case Grew(_, more) => Grow(more)
    case Read(_) => Succeed
    case Failed(_) => Fail
  }

  function OwnSteps(steps: seq<PathStep>, path: string): seq<Step>
    decreases |steps|
  {
    if steps == [] then []
    else if steps[0].path == path then [Own(steps[0])] + OwnSteps(steps[1..], path)
    else OwnSteps(steps[1..], path)
  }

  /** No other path the run reads goes by the name of `path`. */
  predicate NameIsOwn(steps: seq<PathStep>, path: string) {
    forall s :: s in steps && s.Read? && s.path != path ==> Basename(s.path) != Basename(path)
  }

  // --- a path with a name of its own ------------------------------------------------------------------

  lemma StepAlone(t: Transcripts, step: PathStep, path: string)
    requires step.Read? && step.path != path ==> Basename(step.path) != Basename(path)
    ensures View(PathNext(t, step), path) == if step.path == path then Next(View(t, path), Own(step)) else View(t, path)
  {
    hide SliceAt, Bytes, Basename;
  }

  lemma {:induction false} RunAlone(t: Transcripts, steps: seq<PathStep>, path: string)
    requires NameIsOwn(steps, path)
    ensures View(PathRun(t, steps), path) == Run(View(t, path), OwnSteps(steps, path))
    decreases |steps|
  {
    hide Next, PathNext, View, Basename;
    if steps != [] {
      StepAlone(t, steps[0], path);
      RunAlone(PathNext(t, steps[0]), steps[1..], path);
      if steps[0].path == path {
        assert ([Own(steps[0])] + OwnSteps(steps[1..], path))[1..] == OwnSteps(steps[1..], path);
      }
    }
  }

  /** A path whose name no other path read shares is read in slices that tile it. */
  lemma OwnNameTiles(steps: seq<PathStep>, path: string)
    requires NameIsOwn(steps, path) && AllFit(At(PathRun(NOTHING_READ, steps).files, path))
    ensures TiledAt(PathRun(NOTHING_READ, steps), path)
  {
    hide Run, AllFit, PathRun, Tiles, NameIsOwn;
    RunAlone(NOTHING_READ, steps, path);
    SlicesTileTheTranscript(OwnSteps(steps, path));
  }

  // --- two paths of one name ------------------------------------------------------------------------------

  const X_LINE: Text := [120]

  /** Two one-line files of one name: once the first has been read, the second never is. */
  function Shadowed(p: string, q: string): seq<PathStep> {
    [Grew(p, [X_LINE]), Read(p), Grew(q, [X_LINE]), Read(q)]
  }

  lemma OneLineFile()
    ensures AreLines([X_LINE]) && |Bytes([X_LINE])| == 2 && AllFit([X_LINE])
    ensures SliceAt(Bytes([X_LINE]), 0).Some? && SliceAt(Bytes([X_LINE]), 0).value.newOffset == 2
    ensures SliceAt(Bytes([X_LINE]), 2).None?
  {
    hide Encode, SliceAt, CutBuffer;
    assert [X_LINE][..0] == [] && Chars([]) == [];
    assert Chars([X_LINE]) == X_LINE + [LF];
    LfIsOneByte(X_LINE);
    assert Xs(1) == X_LINE;
    XsAreBytes(1);
    NewDataAdvances(Bytes([X_LINE]), 2);
    NewDataAdvances(Bytes([X_LINE]), 0);
    ShortFileReadWhole();
  }

  lemma ShortFileReadWhole()
    requires |Bytes([X_LINE])| == 2
    ensures SliceAt(Bytes([X_LINE]), 0).Some? && SliceAt(Bytes([X_LINE]), 0).value.newOffset == 2
  {
    hide Decode, Encode, LastIndexOf, Bytes;
  }

  lemma ShadowedIsSkipped(p: string, q: string)
    requires p != q && Basename(p) == Basename(q)
    ensures var t := PathRun(NOTHING_READ, Shadowed(p, q));
            At(t.files, p) == [X_LINE] && At(t.files, q) == [X_LINE] && OffsetOf(t.offsets, q) == 2 &&
              At(t.slices, q) == []
  {
    hide SliceAt, Bytes, Basename;
    OneLineFile();
    var steps := Shadowed(p, q);
    var t1 := PathNext(NOTHING_READ, steps[0]);
    var t2 := PathNext(t1, steps[1]);
    var t3 := PathNext(t2, steps[2]);
    var t4 := PathNext(t3, steps[3]);
    assert [] + [X_LINE] == [X_LINE];
    assert At(t3.files, q) == [X_LINE] && OffsetOf(t3.offsets, q) == 2;
    FourSteps(NOTHING_READ, steps[0], steps[1], steps[2], steps[3]);
  }

  lemma FourSteps(t: Transcripts, a: PathStep, b: PathStep, c: PathStep, d: PathStep)
    ensures PathRun(t, [a, b, c, d]) == PathNext(PathNext(PathNext(PathNext(t, a), b), c), d)
  {
    hide PathNext;
    assert [a, b, c, d][1..] == [b, c, d] && [b, c, d][1..] == [c, d] && [c, d][1..] == [d] && [d][1..] == [];
    var t1 := PathNext(t, a);
    var t2 := PathNext(t1, b);
    var t3 := PathNext(t2, c);
    assert PathRun(t, [a, b, c, d]) == PathRun(t1, [b, c, d]);
    assert PathRun(t1, [b, c, d]) == PathRun(t2, [c, d]);
    assert PathRun(t2, [c, d]) == PathRun(t3, [d]) == PathRun(PathNext(t3, d), []);
  }

  /** Two paths of one name: a run in which every line fits, and the second path is not tiled. */
  lemma SharedNameBreaksTiles(p: string, q: string)
    requires p != q && Basename(p) == Basename(q)
    ensures var t := PathRun(NOTHING_READ, Shadowed(p, q));
            (forall path :: AllFit(At(t.files, path))) && !TiledAt(t, q)
  {
    hide PathRun, Basename, AllFit, Bytes, AreLines;
    ShadowedIsSkipped(p, q);
    var t := PathRun(NOTHING_READ, Shadowed(p, q));
    OneLineFile();
    EmptyBytes();
    assert [X_LINE][..0] == [];
    forall path ensures AllFit(At(t.files, path)) {
      OnlyTheseFiles(p, q, path);
      assert AllFit([]) by { NoLinesFit(); }
    }
  }

  lemma NoLinesFit()
    ensures AllFit([])
  {
  }

  lemma OnlyTheseFiles(p: string, q: string, path: string)
    requires p != q
    ensures var files := PathRun(NOTHING_READ, Shadowed(p, q)).files;
            At(files, path) == [] || At(files, path) == [X_LINE]
  {
    hide SliceAt, Bytes, Basename;
    var steps := Shadowed(p, q);
    FourSteps(NOTHING_READ, steps[0], steps[1], steps[2], steps[3]);
    assert [] + [X_LINE] == [X_LINE];
  }

  // --- exactly when --------------------------------------------------------------------------------------------

  predicate NamesDiffer(paths: set<string>) {
    forall p, q :: p in paths && q in paths && p != q ==> Basename(p) != Basename(q)
  }

  predicate ReadsWithin(steps: seq<PathStep>, paths: set<string>) {
    forall s :: s in steps ==> s.path in paths
  }

  ghost predicate EveryRunTiles(paths: set<string>) {
    forall steps ::
      (&& ReadsWithin(steps, paths)
       && (forall path :: path in paths ==> AllFit(At(PathRun(NOTHING_READ, steps).files, path)))) ==>
      forall path :: path in paths ==> TiledAt(PathRun(NOTHING_READ, steps), path)
  }

  /** Every run over a set of paths tiles every one of them exactly when no two go by the same name. */
  lemma TilesExactlyWhenNamesDiffer(paths: set<string>)
    ensures EveryRunTiles(paths) <==> NamesDiffer(paths)
  {
    hide PathRun, Basename, AllFit, TiledAt;
    if NamesDiffer(paths) {
      forall steps, path | ReadsWithin(steps, paths) && path in paths &&
        AllFit(At(PathRun(NOTHING_READ, steps).files, path))
        ensures TiledAt(PathRun(NOTHING_READ, steps), path)
      {
        OwnNameTiles(steps, path);
      }
    } else {
      var p, q :| p in paths && q in paths && p != q && Basename(p) == Basename(q);
      SharedNameBreaksTiles(p, q);
      assert ReadsWithin(Shadowed(p, q), paths);
    }
  }
}
