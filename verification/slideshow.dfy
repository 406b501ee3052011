/** The ffmpeg slideshow renderer (src/services/ffmpeg-renderer.ts): file
    naming inside the per-render temporary directory, the concat list handed
    to ffmpeg, and the control flow of `renderVideoWithFFmpeg`, whose steps
    (downloads, file writes, the encode) may each fail. */
module Slideshow {
  import opened Wrappers
  import opened Text
  import opened Paths

  /** Seconds each image is shown, written into the concat list. */
  const SecondsPerImage: nat := 3

  /** The `TypeError` Node raises for `path.dirname(undefined)`. */
  const MissingPathError: string := "The \"path\" argument must be of type string. Received undefined"

  // ---------------------------------------------------------------------
  // Names

  /** `path.join(process.cwd(), 'temp', Date.now().toString())`. */
  function TempDir(cwd: string, now: nat): string {
    JoinPath(JoinPath(cwd, "temp"), NatToString(now))
  }

  function ImageName(i: nat): string {
    "image_" + NatToString(i) + ".jpg"
  }

  function ImagePath(dir: string, i: nat): string {
    JoinPath(dir, ImageName(i))
  }

  function AudioPath(dir: string): string {
    JoinPath(dir, "audio.mp3")
  }

  /** The paths the download loop collects, in image order. */
  function ImagePaths(dir: string, n: nat): (r: seq<string>)
    ensures |r| == n
    ensures forall i :: 0 <= i < n ==> r[i] == ImagePath(dir, i)
  {
    seq(n, i requires 0 <= i < n => ImagePath(dir, i))
  }

  // ---------------------------------------------------------------------
  // The concat list of `createVideoFromImages`

  const FilePrefix: string := "file '"

  /** `` `file '${p}'` `` */
  function FileLine(p: string): string {
    FilePrefix + p + "'"
  }

  /** `` `duration ${duration}` `` */
  function DurationLine(): string {
    "duration " + NatToString(SecondsPerImage)
  }

  /** One mapped element: `` `file '${img}'\nduration ${duration}` `` */
  function Entry(p: string): string {
    FileLine(p) + "\n" + DurationLine()
  }

  function Entries(paths: seq<string>): (r: seq<string>)
    ensures |r| == |paths|
    ensures forall i :: 0 <= i < |paths| ==> r[i] == Entry(paths[i])
  {
    seq(|paths|, i requires 0 <= i < |paths| => Entry(paths[i]))
  }

  /** `imagePaths[imagePaths.length - 1]` interpolated into a template. */
  function LastOrUndefined(paths: seq<string>): string {
    if |paths| == 0 then "undefined" else paths[|paths| - 1]
  }

  /** The concat file's text: the entries joined by line breaks, then the
      last image once more. */
  function ConcatContent(paths: seq<string>): string {
    Join(Entries(paths), '\n') + "\n" + FileLine(LastOrUndefined(paths))
  }

  /** `path.join(path.dirname(imagePaths[0]), 'concat.txt')`, which throws
      when there is no first image. */
  function ConcatPath(paths: seq<string>): (r: Result<string, string>)
    ensures r.Failure? <==> |paths| == 0
    ensures r.Failure? ==> r.error == MissingPathError
  {
    if |paths| == 0 then Failure(MissingPathError)
    else Success(JoinPath(Dirname(paths[0]), "concat.txt"))
  }

  /** The lines the concat text is meant to have: a file line and a
      duration line per image, and a closing file line. */
  function ListLines(paths: seq<string>): (r: seq<string>)
    ensures |r| == 2 * |paths|
  {
    if |paths| == 0 then []
    else [FileLine(paths[0]), DurationLine()] + ListLines(paths[1..])
  }

  /** Line `2i` names path `i` and line `2i + 1` holds its duration. */
  lemma {:induction false} ListLinesAt(paths: seq<string>, i: nat)
    requires i < |paths|
    ensures ListLines(paths)[2 * i] == FileLine(paths[i])
    ensures ListLines(paths)[2 * i + 1] == DurationLine()
  {
    if i > 0 {
      var j := i - 1;
      var tail := ListLines(paths[1..]);
      ListLinesAt(paths[1..], j);
      assert ListLines(paths) == [FileLine(paths[0]), DurationLine()] + tail;
      assert 2 * i == 2 * j + 2;
    }
  }

  /** The path a concat line names, if it is a `file` line. */
  function FileTarget(line: string): Option<string> {
    if |line| >= |FilePrefix| + 1 && line[..|FilePrefix|] == FilePrefix && line[|line| - 1] == '\''
    then Some(line[|FilePrefix|..|line| - 1])
    else None
  }

  /** The paths named by the `file` lines, in order. */
  function FileTargets(lines: seq<string>): seq<string> {
    if |lines| == 0 then []
    else match FileTarget(lines[0])
      case Some(p) => [p] + FileTargets(lines[1..])
      case None => FileTargets(lines[1..])
  }

  /** Number of `duration` lines. */
  function DurationCount(lines: seq<string>): nat {
    if |lines| == 0 then 0
    else (if lines[0] == DurationLine() then 1 else 0) + DurationCount(lines[1..])
  }

  // ---------------------------------------------------------------------
  // Concat-list properties

  lemma FileTargetOfFileLine(p: string)
    ensures FileTarget(FileLine(p)) == Some(p)
  {
    var line := FileLine(p);
    assert line[..|FilePrefix|] == FilePrefix;
    assert line[|FilePrefix|..|line| - 1] == p;
  }

  lemma DurationLineIsNoFileLine()
    ensures FileTarget(DurationLine()) == None
    ensures '\n' !in DurationLine()
  {
    var d := DurationLine();
    assert d[0] == 'd';
    assert FilePrefix[0] == 'f';
    assert d[..|FilePrefix|][0] == 'd';
    assert NatToString(SecondsPerImage) == "3";
  }

  lemma NoBreakInFileLine(p: string)
    requires '\n' !in p
    ensures '\n' !in FileLine(p)
  {
    assert '\n' !in FilePrefix && '\n' !in "'";
  }

  /** The joined entries are the joined meant lines. */
  lemma {:induction false} JoinEntries(paths: seq<string>)
    requires |paths| >= 1
    ensures Join(Entries(paths), '\n') == Join(ListLines(paths), '\n')
  {
    var f := FileLine(paths[0]);
    var d := DurationLine();
    assert Join([f, d], '\n') == f + ['\n'] + d == Entry(paths[0]);
    if |paths| == 1 {
      assert ListLines(paths) == [f, d];
    } else {
      JoinEntries(paths[1..]);
      assert Entries(paths) == [Entry(paths[0])] + Entries(paths[1..]);
      assert Entries(paths)[1..] == Entries(paths[1..]);
      JoinAppend([f, d], ListLines(paths[1..]), '\n');
    }
  }

  lemma {:induction false} ListLinesNoBreak(paths: seq<string>)
    requires forall i :: 0 <= i < |paths| ==> '\n' !in paths[i]
    ensures forall k :: 0 <= k < |ListLines(paths)| ==> '\n' !in ListLines(paths)[k]
  {
    if |paths| > 0 {
      ListLinesNoBreak(paths[1..]);
      NoBreakInFileLine(paths[0]);
      DurationLineIsNoFileLine();
    }
  }

  /** For separator-free paths, the concat text splits into a file and a
      duration line per image followed by a repeated file line for the last. */
  lemma ConcatContentLines(paths: seq<string>)
    requires |paths| >= 1
    requires forall i :: 0 <= i < |paths| ==> '\n' !in paths[i]
    ensures Split(ConcatContent(paths), '\n') == ListLines(paths) + [FileLine(paths[|paths| - 1])]
  {
    var lines := ListLines(paths) + [FileLine(paths[|paths| - 1])];
    ConcatContentIsJoin(paths);
    ConcatLinesNoBreak(paths);
    SplitJoin(lines, '\n');
  }

  /** The concat text is its lines joined by line breaks. */
  lemma ConcatContentIsJoin(paths: seq<string>)
    requires |paths| >= 1
    ensures ConcatContent(paths) == Join(ListLines(paths) + [FileLine(paths[|paths| - 1])], '\n')
  {
    var last := FileLine(paths[|paths| - 1]);
    JoinEntries(paths);
    JoinAppend(ListLines(paths), [last], '\n');
    assert Join([last], '\n') == last;
  }

  lemma ConcatLinesNoBreak(paths: seq<string>)
    requires |paths| >= 1
    requires forall i :: 0 <= i < |paths| ==> '\n' !in paths[i]
    ensures var lines := ListLines(paths) + [FileLine(paths[|paths| - 1])];
            forall k :: 0 <= k < |lines| ==> '\n' !in lines[k]
  {
    ListLinesNoBreak(paths);
    NoBreakInFileLine(paths[|paths| - 1]);
  }

  lemma {:induction false} ListLinesTargets(paths: seq<string>)
    ensures FileTargets(ListLines(paths)) == paths
    ensures DurationCount(ListLines(paths)) == |paths|
  {
    if |paths| > 0 {
      var lines := ListLines(paths);
      FileTargetOfFileLine(paths[0]);
      DurationLineIsNoFileLine();
      assert lines[1..][1..] == ListLines(paths[1..]);
      ListLinesTargets(paths[1..]);
      assert FilePrefix + paths[0] + "'" != DurationLine() by {
        assert (FilePrefix + paths[0] + "'")[0] == 'f';
        assert DurationLine()[0] == 'd';
      }
      assert [paths[0]] + paths[1..] == paths;
    }
  }

  lemma {:induction false} TargetsAppend(a: seq<string>, b: seq<string>)
    ensures FileTargets(a + b) == FileTargets(a) + FileTargets(b)
    ensures DurationCount(a + b) == DurationCount(a) + DurationCount(b)
  {
    if |a| > 0 {
      assert (a + b)[1..] == a[1..] + b;
      TargetsAppend(a[1..], b);
    } else {
      assert a + b == b;
    }
  }

  /** Read back, the concat list names every image in order and then the
      last image again, with one duration line per image. */
  lemma ConcatContentEntries(paths: seq<string>)
    requires |paths| >= 1
    requires forall i :: 0 <= i < |paths| ==> '\n' !in paths[i]
    ensures FileTargets(Split(ConcatContent(paths), '\n')) == paths + [paths[|paths| - 1]]
    ensures DurationCount(Split(ConcatContent(paths), '\n')) == |paths|
  {
    ConcatContentLines(paths);
    var last := FileLine(paths[|paths| - 1]);
    TargetsAppend(ListLines(paths), [last]);
    ListLinesTargets(paths);
    FileTargetOfFileLine(paths[|paths| - 1]);
    assert FileTargets([last]) == [paths[|paths| - 1]];
    assert last != DurationLine() by {
      assert last[0] == 'f';
      assert DurationLine()[0] == 'd';
    }
  }

  // ---------------------------------------------------------------------
  // Name properties

  lemma NoSlashInImageName(i: nat)
    ensures '/' !in ImageName(i)
  {
    var s := NatToString(i);
    assert forall k :: 0 <= k < |s| ==> s[k] != '/';
    assert '/' !in "image_" && '/' !in ".jpg";
  }

  /** Distinct indices get distinct image files. */
  lemma ImagePathInjective(dir: string, i: nat, j: nat)
    requires ImagePath(dir, i) == ImagePath(dir, j)
    ensures i == j
  {
    NoSlashInImageName(i);
    NoSlashInImageName(j);
    BasenameOfJoin(dir, ImageName(i));
    BasenameOfJoin(dir, ImageName(j));
    var a := NatToString(i);
    var b := NatToString(j);
    assert |a| == |b|;
    assert a == ImageName(i)[6..6 + |a|];
    assert b == ImageName(j)[6..6 + |b|];
    NatToStringInjective(i, j);
  }

  /** Renders started at different milliseconds use different temporary
      directories, both inside `temp` under the working directory. */
  lemma TempDirPerMillisecond(cwd: string, a: nat, b: nat)
    ensures Under(TempDir(cwd, a), JoinPath(cwd, "temp"))
    ensures TempDir(cwd, a) == TempDir(cwd, b) ==> a == b
  {
    UnderJoin(JoinPath(cwd, "temp"), NatToString(a));
    if TempDir(cwd, a) == TempDir(cwd, b) {
      var sa := NatToString(a);
      var sb := NatToString(b);
      assert '/' !in sa by { assert forall k :: 0 <= k < |sa| ==> sa[k] != '/'; }
      assert '/' !in sb by { assert forall k :: 0 <= k < |sb| ==> sb[k] != '/'; }
      BasenameOfJoin(JoinPath(cwd, "temp"), sa);
      BasenameOfJoin(JoinPath(cwd, "temp"), sb);
      NatToStringInjective(a, b);
    }
  }

  /** The concat file is written next to the images. */
  lemma ConcatBesideImages(dir: string, n: nat)
    requires |dir| > 0 && n >= 1
    ensures ConcatPath(ImagePaths(dir, n)) == Success(JoinPath(dir, "concat.txt"))
  {
    NoSlashInImageName(0);
    DirnameOfJoin(dir, ImageName(0));
  }

  // ---------------------------------------------------------------------
  // The render flow

  /** The effectful steps of a render, each of which may throw. */
  datatype Step =
    | MakeTempDir(dir: string)
    | DownloadImage(index: nat, url: string, path: string)
    | DownloadAudio(url: string, path: string)
    | WriteConcat(path: string, imagePaths: seq<string>)  // writes ConcatContent(imagePaths) to path
    | Encode(concatPath: string, audioPath: string, outputPath: string)

  function Downloads(dir: string, images: seq<string>): (r: seq<Step>)
    ensures |r| == |images|
    ensures forall i :: 0 <= i < |images| ==> r[i] == DownloadImage(i, images[i], ImagePath(dir, i))
  {
    seq(|images|, i requires 0 <= i < |images| => DownloadImage(i, images[i], ImagePath(dir, i)))
  }

  /** The steps that follow the audio download: write the list, then encode
      (none when the list's location cannot be computed). */
  function Finishing(dir: string, n: nat, outputPath: string): seq<Step> {
    var cp := JoinPath(dir, "concat.txt");
    if n == 0 then [] else [WriteConcat(cp, ImagePaths(dir, n)), Encode(cp, AudioPath(dir), outputPath)]
  }

  /** The steps from the audio download on. */
  function Tail(dir: string, n: nat, audioUrl: string, outputPath: string): seq<Step> {
    [DownloadAudio(audioUrl, AudioPath(dir))] + Finishing(dir, n, outputPath)
  }

  function Head(dirExists: bool, dir: string): seq<Step> {
    if dirExists then [] else [MakeTempDir(dir)]
  }

  /** The steps of the `try` block when none of them fails. */
  function Body(dir: string, images: seq<string>, audioUrl: string, outputPath: string): seq<Step> {
    Downloads(dir, images) + Tail(dir, |images|, audioUrl, outputPath)
  }

  /** Every step a render attempts when none of them fails. */
  function Plan(dirExists: bool, dir: string, images: seq<string>, audioUrl: string, outputPath: string): seq<Step> {
    Head(dirExists, dir) + Body(dir, images, audioUrl, outputPath)
  }

  /** `fs.rmSync(dir, { recursive: true, force: true })`. */
  function RemoveTree(fs: set<string>, dir: string): (r: set<string>)
    ensures forall p :: p in r <==> p in fs && !Under(p, dir)
  {
    set p | p in fs && !Under(p, dir)
  }

  predicate Succeeded(log: seq<Step>, fails: Step -> Option<string>) {
    forall k :: 0 <= k < |log| ==> fails(log[k]).None?
  }

  /** `log` follows `plan` and every step of it except possibly the last
      succeeded: execution stops at the first failing step. */
  predicate RunsUntilFailure(log: seq<Step>, plan: seq<Step>, fails: Step -> Option<string>) {
    && 1 <= |log| <= |plan| && log == plan[..|log|]
    && Succeeded(log[..|log| - 1], fails)
  }

  /** What a finished run reports: success exactly when the whole plan ran
      without failure and the concat list could be placed; otherwise the
      error of the failing step, or the `TypeError` of a list with no image. */
  predicate Outcome(log: seq<Step>, plan: seq<Step>, fails: Step -> Option<string>, n: nat,
                    outputPath: string, result: Result<string, string>)
    requires |log| >= 1
  {
    && (result.Success? <==> log == plan && Succeeded(log, fails) && n > 0)
    && (result.Success? ==> result.value == outputPath)
    && (result.Failure? ==>
          || fails(log[|log| - 1]) == Some(result.error)
          || (n == 0 && log == plan && Succeeded(log, fails) && result.error == MissingPathError))
  }

  /** Whether a finished run leaves a file at the output path: the encode was
      attempted and either succeeded or, failing, had already created the
      file (ffmpeg writes its output as it goes and nothing removes it). */
  predicate WritesOutput(log: seq<Step>, result: Result<string, string>, partialOutput: bool) {
    |log| >= 1 && log[|log| - 1].Encode? && (result.Success? || partialOutput)
  }

  lemma SucceededAppend(a: seq<Step>, b: seq<Step>, fails: Step -> Option<string>)
    requires Succeeded(a, fails) && Succeeded(b, fails)
    ensures Succeeded(a + b, fails)
  {
    assert forall k :: |a| <= k < |a + b| ==> (a + b)[k] == b[k - |a|];
  }

  /** The download loop of `renderVideoWithFFmpeg`: fetch image `i` into
      `image_i.jpg` for each `i` in order, stopping at the first failure. */
  method DownloadImages(fs: set<string>, dir: string, images: seq<string>, fails: Step -> Option<string>)
    returns (fs': set<string>, done: seq<Step>, imagePaths: seq<string>, failure: Option<string>)
    ensures |done| <= |images| && done == Downloads(dir, images)[..|done|]
    ensures failure.None? ==> |done| == |images| && Succeeded(done, fails) && imagePaths == ImagePaths(dir, |images|)
    ensures failure.Some? ==> |done| >= 1 && Succeeded(done[..|done| - 1], fails) && fails(done[|done| - 1]) == failure
    ensures forall p :: !Under(p, dir) ==> (p in fs' <==> p in fs)
    ensures dir in fs ==> dir in fs'
  {
    fs' := fs;
    done := [];
    imagePaths := [];
    failure := None;
    var i := 0;
    while i < |images|
      invariant 0 <= i <= |images|
      invariant done == Downloads(dir, images)[..i] && Succeeded(done, fails)
      invariant failure.None?
      invariant imagePaths == ImagePaths(dir, i)
      invariant forall p :: !Under(p, dir) ==> (p in fs' <==> p in fs)
      invariant dir in fs ==> dir in fs'
    {
      var step := DownloadImage(i, images[i], ImagePath(dir, i));
      ghost var before := done;
      done := done + [step];
      failure := fails(step);
      if failure.Some? {
        assert done[..|done| - 1] == before;
        return;
      }
      UnderJoin(dir, ImageName(i));
      fs' := fs' + {ImagePath(dir, i)};
      imagePaths := imagePaths + [ImagePath(dir, i)];
      i := i + 1;
    }
  }

  /** The rest of the `try` block once every image is in: fetch the audio,
      write the concat list beside the images, encode, and clean up; on any
      failure clean up and re-throw. */
  method FinishRender(fs: set<string>, dir: string, imagePaths: seq<string>, audioUrl: string,
                      outputPath: string, fails: Step -> Option<string>, partialOutput: bool)
    returns (fs': set<string>, steps: seq<Step>, result: Result<string, string>)
    requires |dir| > 0 && imagePaths == ImagePaths(dir, |imagePaths|)
    ensures RunsUntilFailure(steps, Tail(dir, |imagePaths|, audioUrl, outputPath), fails)
    ensures Outcome(steps, Tail(dir, |imagePaths|, audioUrl, outputPath), fails, |imagePaths|, outputPath, result)
    ensures forall p :: p in fs' ==> !Under(p, dir)
    ensures forall p :: !Under(p, dir) ==>
              (p in fs' <==> p in fs || (p == outputPath && WritesOutput(steps, result, partialOutput)))
  {
    ghost var tail := Tail(dir, |imagePaths|, audioUrl, outputPath);
    var audioPath := AudioPath(dir);
    var audioStep := DownloadAudio(audioUrl, audioPath);
    steps := [audioStep];
    var e := fails(audioStep);
    if e.Some? {
      fs' := RemoveTree(fs, dir);
      result := Failure(e.value);
      return;
    }
    UnderJoin(dir, "audio.mp3");
    fs' := fs + {audioPath};

    var concatPath := ConcatPath(imagePaths);
    if concatPath.Failure? {
      assert tail == [audioStep];
      fs' := RemoveTree(fs', dir);
      result := Failure(concatPath.error);
      return;
    }
    ConcatBesideImages(dir, |imagePaths|);
    var writeStep := WriteConcat(concatPath.value, imagePaths);
    var encodeStep := Encode(concatPath.value, audioPath, outputPath);
    assert tail == [audioStep, writeStep, encodeStep];
    steps := [audioStep, writeStep];
    e := fails(writeStep);
    if e.Some? {
      fs' := RemoveTree(fs', dir);
      result := Failure(e.value);
      return;
    }
    UnderJoin(dir, "concat.txt");
    fs' := fs' + {concatPath.value};

    steps := [audioStep, writeStep, encodeStep];
    e := fails(encodeStep);
    if e.Some? {
      assert !Succeeded(steps, fails) by {
        assert fails(steps[2]).Some?;
      }
      fs' := RemoveTree(if partialOutput then fs' + {outputPath} else fs', dir);
      result := Failure(e.value);
      return;
    }
    fs' := RemoveTree(fs' + {outputPath}, dir);
    result := Success(outputPath);
  }

  /** The `try` block: download the images, then finish the render; on any
      failure the temporary directory is removed and the error re-thrown. */
  method TryBlock(fs: set<string>, dir: string, images: seq<string>, audioUrl: string,
                  outputPath: string, fails: Step -> Option<string>, partialOutput: bool)
    returns (fs': set<string>, steps: seq<Step>, result: Result<string, string>)
    requires |dir| > 0
    ensures RunsUntilFailure(steps, Body(dir, images, audioUrl, outputPath), fails)
    ensures Outcome(steps, Body(dir, images, audioUrl, outputPath), fails, |images|, outputPath, result)
    ensures forall p :: p in fs' ==> !Under(p, dir)
    ensures forall p :: !Under(p, dir) ==>
              (p in fs' <==> p in fs || (p == outputPath && WritesOutput(steps, result, partialOutput)))
  {
    ghost var downloads := Downloads(dir, images);
    ghost var tail := Tail(dir, |images|, audioUrl, outputPath);
    assert Body(dir, images, audioUrl, outputPath) == downloads + tail;
    var fs1, done, imagePaths, failure := DownloadImages(fs, dir, images, fails);
    if failure.Some? {
      assert (downloads + tail)[..|done|] == done;
      assert done[|done| - 1].DownloadImage?;
      fs' := RemoveTree(fs1, dir);
      steps := done;
      result := Failure(failure.value);
      return;
    }
    assert done == downloads;
    var rest;
    fs', rest, result := FinishRender(fs1, dir, imagePaths, audioUrl, outputPath, fails, partialOutput);
    steps := done + rest;
    PrependRun(downloads, rest, tail, fails);
  }

  /** `renderVideoWithFFmpeg`. `fs` is the set of existing paths, `now` stands
      for `Date.now()`, `fails` says which steps throw and with what message,
      and `partialOutput` says whether a failing encode had already created
      the output file. Returns the new file set, the steps attempted in order,
      and the outcome. */
  method RenderVideoWithFFmpeg(fs: set<string>, cwd: string, now: nat, images: seq<string>, audioUrl: string,
                               outputPath: string, fails: Step -> Option<string>, partialOutput: bool)
    returns (fs': set<string>, log: seq<Step>, result: Result<string, string>)
    ensures var dir := TempDir(cwd, now);
            var plan := Plan(dir in fs, dir, images, audioUrl, outputPath);
            RunsUntilFailure(log, plan, fails) && Outcome(log, plan, fails, |images|, outputPath, result)
    ensures var dir := TempDir(cwd, now);
            if dir !in fs && fails(MakeTempDir(dir)).Some? then
              fs' == fs && log == [MakeTempDir(dir)] && result == Failure(fails(MakeTempDir(dir)).value)
            else
              && (forall p :: p in fs' ==> !Under(p, dir))
              && (forall p :: !Under(p, dir) ==>
                    (p in fs' <==> p in fs || (p == outputPath && WritesOutput(log, result, partialOutput))))
  {
    var dir := TempDir(cwd, now);
    ghost var head := Head(dir in fs, dir);
    ghost var body := Body(dir, images, audioUrl, outputPath);
    assert Plan(dir in fs, dir, images, audioUrl, outputPath) == head + body;
    assert |body| >= 1;
    var fs0 := fs;
    log := [];
    if dir !in fs {
      log := [MakeTempDir(dir)];
      var e := fails(MakeTempDir(dir));
      if e.Some? {
        assert (head + body)[..1] == log;
        fs' := fs;
        result := Failure(e.value);
        return;
      }
      fs0 := fs + {dir};
    }
    assert log == head && Succeeded(log, fails);

    var steps;
    fs', steps, result := TryBlock(fs0, dir, images, audioUrl, outputPath, fails, partialOutput);
    log := log + steps;
    PrependRun(head, steps, body, fails);
  }

  /** A run of the `try` block after a successful preamble is a run of the whole plan. */
  lemma PrependRun(head: seq<Step>, steps: seq<Step>, body: seq<Step>, fails: Step -> Option<string>)
    requires Succeeded(head, fails) && RunsUntilFailure(steps, body, fails)
    ensures RunsUntilFailure(head + steps, head + body, fails)
    ensures (head + steps == head + body) <==> (steps == body)
    ensures Succeeded(head + steps, fails) <==> Succeeded(steps, fails)
    ensures (head + steps)[|head + steps| - 1] == steps[|steps| - 1]
  {
    assert (head + body)[..|head + steps|] == head + steps;
    assert (head + steps)[..|head + steps| - 1] == head + steps[..|steps| - 1];
    SucceededAppend(head, steps[..|steps| - 1], fails);
    if Succeeded(steps, fails) {
      SucceededAppend(head, steps, fails);
    }
    if Succeeded(head + steps, fails) {
      forall k | 0 <= k < |steps|
        ensures fails(steps[k]).None?
      {
        assert steps[k] == (head + steps)[|head| + k];
      }
    }
    if head + steps == head + body {
      assert steps == (head + steps)[|head|..];
    }
  }

  /** The attempted steps follow the plan's order: the temporary directory is
      made first if it was missing and image `i` is downloaded to
      `image_i.jpg` at position `i` after that. */
  lemma PlanOrder(dirExists: bool, dir: string, images: seq<string>, audioUrl: string, outputPath: string)
    ensures var plan := Plan(dirExists, dir, images, audioUrl, outputPath);
            var off := if dirExists then 0 else 1;
            && |plan| >= off + |images| + 1
            && (!dirExists ==> plan[0] == MakeTempDir(dir))
            && (forall i :: 0 <= i < |images| ==> plan[off + i] == DownloadImage(i, images[i], ImagePath(dir, i)))
            && plan[off + |images|] == DownloadAudio(audioUrl, AudioPath(dir))
  {
    BodyOrder(dir, images, audioUrl, outputPath);
    PlanIsHeadBody(dirExists, dir, images, audioUrl, outputPath);
  }

  /** The plan is the `try` block shifted by the `mkdir` step, if any. */
  lemma PlanIsHeadBody(dirExists: bool, dir: string, images: seq<string>, audioUrl: string, outputPath: string)
    ensures var plan := Plan(dirExists, dir, images, audioUrl, outputPath);
            var body := Body(dir, images, audioUrl, outputPath);
            var off := if dirExists then 0 else 1;
            && |plan| == off + |body|
            && (!dirExists ==> plan[0] == MakeTempDir(dir))
            && forall i :: 0 <= i < |body| ==> plan[off + i] == body[i]
  {
  }

  /** The `try` block downloads image `i` at position `i`, then the audio. */
  lemma BodyOrder(dir: string, images: seq<string>, audioUrl: string, outputPath: string)
    ensures var body := Body(dir, images, audioUrl, outputPath);
            && |body| >= |images| + 1
            && (forall i :: 0 <= i < |images| ==> body[i] == DownloadImage(i, images[i], ImagePath(dir, i)))
            && body[|images|] == DownloadAudio(audioUrl, AudioPath(dir))
  {
    var downloads := Downloads(dir, images);
    var tail := Tail(dir, |images|, audioUrl, outputPath);
    assert tail[0] == DownloadAudio(audioUrl, AudioPath(dir));
    assert forall i :: 0 <= i < |images| ==> (downloads + tail)[i] == downloads[i];
    assert (downloads + tail)[|images|] == tail[0];
  }

  /** The audio is fetched only after every image: no image download comes
      after it and the audio download occurs once. */
  lemma AudioAfterImages(dirExists: bool, dir: string, images: seq<string>, audioUrl: string, outputPath: string)
    ensures var plan := Plan(dirExists, dir, images, audioUrl, outputPath);
            var off := if dirExists then 0 else 1;
            && (forall k :: 0 <= k < |plan| && plan[k].DownloadAudio? ==> k == off + |images|)
            && (forall k :: 0 <= k < |plan| && plan[k].DownloadImage? ==> off <= k < off + |images|)
  {
    var head := Head(dirExists, dir);
    var downloads := Downloads(dir, images);
    var tail := Tail(dir, |images|, audioUrl, outputPath);
    var plan := head + downloads + tail;
    assert |head| == if dirExists then 0 else 1;
    assert forall k :: 1 <= k < |tail| ==> tail[k].WriteConcat? || tail[k].Encode?;
    forall k | 0 <= k < |plan|
      ensures plan[k].DownloadAudio? ==> k == |head| + |images|
      ensures plan[k].DownloadImage? ==> |head| <= k < |head| + |images|
    {
      if k < |head| {
        assert plan[k] == head[k];
      } else if k < |head| + |images| {
        assert plan[k] == downloads[k - |head|];
      } else {
        assert plan[k] == tail[k - |head| - |images|];
      }
    }
  }
}
