/** Where a render job writes its video and the URL it reports
    (src/server.ts, lines 117 and 134). */
module OutputLocation {
  import opened Text
  import opened Paths

  /** Length of the run of whitespace at the start of `s`. */
  function SpaceRun(s: string): (n: nat)
    ensures n <= |s|
    ensures forall k :: 0 <= k < n ==> IsSpace(s[k])
    ensures n < |s| ==> !IsSpace(s[n])
  {
    if |s| == 0 || !IsSpace(s[0]) then 0 else 1 + SpaceRun(s[1..])
  }

  /** `t.replace(/\s+/g, '_')`: each maximal run of whitespace becomes one `_`. */
  function CollapseSpaces(t: string): (r: string)
    ensures |r| <= |t|
    ensures forall k :: 0 <= k < |r| ==> !IsSpace(r[k])
  {
    if |t| == 0 then []
    else if IsSpace(t[0]) then "_" + CollapseSpaces(t[1 + SpaceRun(t[1..])..])
    else [t[0]] + CollapseSpaces(t[1..])
  }

  /** `${jobId}_${topic with whitespace runs replaced}.mp4` */
  function FileName(jobId: string, topic: string): string {
    jobId + "_" + CollapseSpaces(topic) + ".mp4"
  }

  /** `path.resolve('out/' + FileName)` with `cwd` for `process.cwd()`. */
  function OutputPath(cwd: string, jobId: string, topic: string): string {
    JoinPath(cwd + "/out", FileName(jobId, topic))
  }

  /** `/out/${path.basename(outputLocation)}`, the URL a completed job reports. */
  function VideoUrl(cwd: string, jobId: string, topic: string): string {
    "/out/" + Basename(OutputPath(cwd, jobId, topic))
  }

  // ---------------------------------------------------------------------
  // Properties

  /** Text without whitespace is left as it is. */
  lemma {:induction false} CollapseSpacesIdentity(t: string)
    requires forall k :: 0 <= k < |t| ==> !IsSpace(t[k])
    ensures CollapseSpaces(t) == t
  {
    if |t| > 0 {
      CollapseSpacesIdentity(t[1..]);
      assert [t[0]] + t[1..] == t;
    }
  }

  /** Replacing whitespace runs a second time changes nothing. */
  lemma CollapseSpacesIdempotent(t: string)
    ensures CollapseSpaces(CollapseSpaces(t)) == CollapseSpaces(t)
  {
    CollapseSpacesIdentity(CollapseSpaces(t));
  }

  /** Two words separated by one whitespace run are joined by one `_`. */
  lemma CollapseSpacesBetweenWords(a: string, gap: string, b: string)
    requires forall k :: 0 <= k < |a| ==> !IsSpace(a[k])
    requires |gap| > 0 && forall k :: 0 <= k < |gap| ==> IsSpace(gap[k])
    requires |b| > 0 && !IsSpace(b[0])
    ensures CollapseSpaces(a + gap + b) == CollapseSpaces(a) + "_" + CollapseSpaces(b)
  {
    var s := gap + b;
    assert s[0] == gap[0];
    assert s[1..] == gap[1..] + b;
    GapRun(gap[1..], b);
    assert s[|gap|..] == b;
    assert CollapseSpaces(s) == "_" + CollapseSpaces(b);
    CollapseAfterPlainPrefix(a, s);
    CollapseSpacesIdentity(a);
    assert a + gap + b == a + s;
  }

  lemma {:induction false} GapRun(gap: string, b: string)
    requires forall k :: 0 <= k < |gap| ==> IsSpace(gap[k])
    requires |b| == 0 || !IsSpace(b[0])
    ensures SpaceRun(gap + b) == |gap|
  {
    if |gap| > 0 {
      assert (gap + b)[1..] == gap[1..] + b;
      GapRun(gap[1..], b);
    } else {
      assert gap + b == b;
    }
  }

  /** A leading run of whitespace becomes one `_`. */
  lemma CollapseLeadingRun(gap: string, b: string)
    requires |gap| > 0 && forall k :: 0 <= k < |gap| ==> IsSpace(gap[k])
    requires |b| == 0 || !IsSpace(b[0])
    ensures CollapseSpaces(gap + b) == "_" + CollapseSpaces(b)
  {
    var s := gap + b;
    assert s[1..] == gap[1..] + b;
    GapRun(gap[1..], b);
    CollapseSpaceHead(s);
    assert s[1 + (|gap| - 1)..] == b;
  }

  /** A string starting with whitespace: the whole run becomes one `_`. */
  lemma CollapseSpaceHead(s: string)
    requires |s| > 0 && IsSpace(s[0])
    ensures CollapseSpaces(s) == "_" + CollapseSpaces(s[1 + SpaceRun(s[1..])..])
  {
  }

  /** A string starting with a non-space character keeps it. */
  lemma CollapsePlainHead(s: string)
    requires |s| > 0 && !IsSpace(s[0])
    ensures CollapseSpaces(s) == [s[0]] + CollapseSpaces(s[1..])
  {
  }

  /** A trailing run of whitespace becomes one `_`. */
  lemma CollapseTrailingRun(a: string, gap: string)
    requires |a| == 0 || !IsSpace(a[|a| - 1])
    requires |gap| > 0 && forall k :: 0 <= k < |gap| ==> IsSpace(gap[k])
    ensures CollapseSpaces(a + gap) == CollapseSpaces(a) + "_"
  {
    CollapseAppend(a, gap);
    CollapseLeadingRun(gap, []);
    assert gap + [] == gap;
  }

  /** Text that is empty or ends in a non-space character is collapsed
      independently of what follows it: no run crosses the boundary. */
  lemma {:induction false} CollapseAppend(a: string, s: string)
    requires |a| == 0 || !IsSpace(a[|a| - 1])
    ensures CollapseSpaces(a + s) == CollapseSpaces(a) + CollapseSpaces(s)
    decreases |a|
  {
    if |a| == 0 {
      assert a + s == s;
    } else {
      var rest := HeadStep(a);
      CollapseAppend(rest, s);
      AppendStep(a, rest, s);
    }
  }

  /** What the scan of `a` continues with after its first character or
      whitespace run; it still ends in `a`'s last character. */
  function HeadStep(a: string): (rest: string)
    requires |a| > 0 && !IsSpace(a[|a| - 1])
    ensures |rest| < |a|
    ensures |rest| == 0 || !IsSpace(rest[|rest| - 1])
  {
    if IsSpace(a[0]) then
      SpaceRunWithin(a[1..], []);
      assert a[1..] + [] == a[1..];
      a[1 + SpaceRun(a[1..])..]
    else a[1..]
  }

  /** One step of the scan commutes with appending `s`. */
  lemma AppendStep(a: string, rest: string, s: string)
    requires |a| > 0 && !IsSpace(a[|a| - 1]) && rest == HeadStep(a)
    requires CollapseSpaces(rest + s) == CollapseSpaces(rest) + CollapseSpaces(s)
    ensures CollapseSpaces(a + s) == CollapseSpaces(a) + CollapseSpaces(s)
  {
    if IsSpace(a[0]) {
      AppendSpaceStep(a, s);
    } else {
      AppendPlainStep(a, s);
    }
  }

  lemma AppendSpaceStep(a: string, s: string)
    requires |a| > 0 && IsSpace(a[0]) && !IsSpace(a[|a| - 1])
    requires var rest := a[1 + SpaceRun(a[1..])..];
             CollapseSpaces(rest + s) == CollapseSpaces(rest) + CollapseSpaces(s)
    ensures CollapseSpaces(a + s) == CollapseSpaces(a) + CollapseSpaces(s)
  {
    var rest := a[1 + SpaceRun(a[1..])..];
    AppendAfterRun(a, s);
    Regroup("_", CollapseSpaces(rest), CollapseSpaces(s));
  }

  lemma AppendPlainStep(a: string, s: string)
    requires |a| > 0 && !IsSpace(a[0])
    requires CollapseSpaces(a[1..] + s) == CollapseSpaces(a[1..]) + CollapseSpaces(s)
    ensures CollapseSpaces(a + s) == CollapseSpaces(a) + CollapseSpaces(s)
  {
    assert (a + s)[0] == a[0];
    assert (a + s)[1..] == a[1..] + s;
    CollapsePlainHead(a);
    CollapsePlainHead(a + s);
    Regroup([a[0]], CollapseSpaces(a[1..]), CollapseSpaces(s));
  }

  lemma Regroup(x: string, y: string, z: string)
    ensures x + (y + z) == (x + y) + z
  {
  }

  /** When `a` starts with whitespace and ends with a non-space character,
      the run at the head of `a + s` is the run at the head of `a`. */
  lemma AppendAfterRun(a: string, s: string)
    requires |a| > 0 && IsSpace(a[0]) && !IsSpace(a[|a| - 1])
    ensures var n := SpaceRun(a[1..]);
            && 1 + n < |a|
            && CollapseSpaces(a) == "_" + CollapseSpaces(a[1 + n..])
            && CollapseSpaces(a + s) == "_" + CollapseSpaces(a[1 + n..] + s)
  {
    var n := SpaceRun(a[1..]);
    RunOfAppend(a, s);
    CollapseSpaceHead(a);
    CollapseSpaceHead(a + s);
    assert (a + s)[1 + n..] == a[1 + n..] + s;
  }

  /** The run after the first character of `a + s` is the one after the
      first character of `a`, when `a` ends in a non-space character. */
  lemma RunOfAppend(a: string, s: string)
    requires |a| > 1 && !IsSpace(a[|a| - 1])
    ensures SpaceRun((a + s)[1..]) == SpaceRun(a[1..]) < |a| - 1
  {
    assert (a + s)[1..] == a[1..] + s;
    SpaceRunWithin(a[1..], s);
  }

  /** A whitespace run that starts inside `x` ends inside it when `x` ends in
      a non-space character. */
  lemma {:induction false} SpaceRunWithin(x: string, s: string)
    requires |x| > 0 && !IsSpace(x[|x| - 1])
    ensures SpaceRun(x + s) == SpaceRun(x) < |x|
  {
    assert (x + s)[0] == x[0];
    if IsSpace(x[0]) {
      assert (x + s)[1..] == x[1..] + s;
      SpaceRunWithin(x[1..], s);
    }
  }

  lemma {:induction false} CollapseAfterPlainPrefix(a: string, s: string)
    requires forall k :: 0 <= k < |a| ==> !IsSpace(a[k])
    ensures CollapseSpaces(a + s) == a + CollapseSpaces(s)
  {
    if |a| > 0 {
      assert (a + s)[0] == a[0];
      assert (a + s)[1..] == a[1..] + s;
      CollapseAfterPlainPrefix(a[1..], s);
      assert [a[0]] + (a[1..] + CollapseSpaces(s)) == a + CollapseSpaces(s);
    } else {
      assert a + s == s;
    }
  }

  /** For a job id and topic without `/`, the video is written directly into
      `out/` under the working directory and the URL is `/out/` followed by
      the file name. */
  lemma VideoUrlOfPlainTopic(cwd: string, jobId: string, topic: string)
    requires |cwd| > 0 && '/' !in jobId && '/' !in topic
    ensures Dirname(OutputPath(cwd, jobId, topic)) == cwd + "/out"
    ensures VideoUrl(cwd, jobId, topic) == "/out/" + FileName(jobId, topic)
  {
    var c := CollapseSpaces(topic);
    CollapsedHasNoSlash(topic);
    assert '/' !in ".mp4" && '/' !in "_";
    assert '/' !in jobId + "_" + c + ".mp4";
    BasenameOfJoin(cwd + "/out", FileName(jobId, topic));
    DirnameOfJoin(cwd + "/out", FileName(jobId, topic));
  }

  lemma {:induction false} CollapsedHasNoSlash(t: string)
    requires '/' !in t
    ensures '/' !in CollapseSpaces(t)
  {
    if |t| > 0 {
      assert t[0] in t;
      if IsSpace(t[0]) {
        var rest := t[1 + SpaceRun(t[1..])..];
        assert forall c :: c in rest ==> c in t;
        CollapsedHasNoSlash(rest);
      } else {
        assert forall c :: c in t[1..] ==> c in t;
        CollapsedHasNoSlash(t[1..]);
      }
    }
  }

  /** Whatever the topic, the URL is `/out/` followed by one path component. */
  lemma VideoUrlShape(cwd: string, jobId: string, topic: string)
    ensures var u := VideoUrl(cwd, jobId, topic);
            u[..5] == "/out/" && '/' !in u[5..]
  {
    var u := VideoUrl(cwd, jobId, topic);
    assert u[5..] == Basename(OutputPath(cwd, jobId, topic));
  }
}
