/** The frame layout of the `MotivationalVideo` composition
    (src/compositions/MotivationalVideo.tsx): a title, one segment per image,
    up to five caption segments and an outro, each with a start frame, a
    length and an opacity envelope evaluated at the absolute frame. */
module Timeline {
  import opened Text
  import Interpolation

  const TitleFrames: int := 90
  const TitleFadeFrames: int := 30
  const ImageFrames: int := 180
  const ImageFadeIn: int := 30
  const ImageFadeOut: int := 150
  const CaptionFrames: int := 150
  const CaptionFadeIn: int := 20
  const CaptionFadeOut: int := 130
  const MaxCaptions: nat := 5
  const OutroFrames: int := 90

  datatype Kind =
    | Title(topic: string, niche: string)
    | Image(url: string)
    | Caption(line: string)
    | Outro

  /** How a segment's opacity depends on the frame. */
  datatype Envelope =
    | Window(start: int, fullFrom: int, fullUntil: int, end: int)  // [start, fullFrom, fullUntil, end] -> [0, 1, 1, 0], clamped
    | RiseOver(frames: int)                                         // [0, frames] -> [0, 1], clamped on the right only
    | Opaque

  predicate WellFormed(e: Envelope) {
    match e
    case Window(a, b, c, d) => a < b < c < d
    case RiseOver(n) => n > 0
    case Opaque => true
  }

  /** A `<Sequence from durationInFrames>` and the opacity of its content. */
  datatype Segment = Segment(kind: Kind, from: int, duration: int, envelope: Envelope)

  /** A `<Sequence>` renders its children on frames `from <= f < from + duration`. */
  predicate Active(seg: Segment, f: int) {
    seg.from <= f < seg.from + seg.duration
  }

  function Opacity(e: Envelope, f: int): real
    requires WellFormed(e)
  {
    match e
    case Window(a, b, c, d) => Interpolation.FadeInOut(f as real, a as real, b as real, c as real, d as real)
    case RiseOver(n) => Interpolation.Rise(f as real, n as real)
    case Opaque => 1.0
  }

  datatype Composition = Composition(title: Segment, images: seq<Segment>, captions: seq<Segment>, outro: Segment)

  // ---------------------------------------------------------------------
  // Caption lines: `script.split('\n').filter(line => line.trim())`

  /** The pieces whose trimmed form is non-empty, untrimmed and in order. */
  function NonBlank(pieces: seq<string>): (r: seq<string>)
    ensures |r| <= |pieces|
    ensures forall k :: 0 <= k < |r| ==> HasNonSpace(r[k])
    ensures forall x :: x in r ==> x in pieces
  {
    if |pieces| == 0 then []
    else if HasNonSpace(pieces[0]) then [pieces[0]] + NonBlank(pieces[1..])
    else NonBlank(pieces[1..])
  }

  function CaptionLines(script: string): seq<string> {
    NonBlank(Split(script, '\n'))
  }

  // ---------------------------------------------------------------------
  // Layout

  function TitleSegment(topic: string, niche: string): Segment {
    Segment(Title(topic, niche), 0, TitleFrames, RiseOver(TitleFadeFrames))
  }

  function ImageSegment(url: string, i: nat): Segment {
    var s := TitleFrames + i * ImageFrames;
    Segment(Image(url), s, ImageFrames, Window(s, s + ImageFadeIn, s + ImageFadeOut, s + ImageFrames))
  }

  function CaptionSegment(line: string, i: nat): Segment {
    var s := TitleFrames + i * CaptionFrames;
    Segment(Caption(line), s, CaptionFrames, Window(s, s + CaptionFadeIn, s + CaptionFadeOut, s + CaptionFrames))
  }

  function OutroSegment(durationInFrames: int): Segment {
    Segment(Outro, durationInFrames - OutroFrames, OutroFrames, Opaque)
  }

  function Min(a: nat, b: nat): nat {
    if a <= b then a else b
  }

  /** The segments the component renders for its props and video config. */
  function Compose(script: string, niche: string, topic: string, images: seq<string>, durationInFrames: int): Composition {
    var lines := CaptionLines(script);
    var shown := lines[..Min(|lines|, MaxCaptions)];
    Composition(
      TitleSegment(topic, niche),
      seq(|images|, i requires 0 <= i < |images| => ImageSegment(images[i], i)),
      seq(|shown|, i requires 0 <= i < |shown| => CaptionSegment(shown[i], i)),
      OutroSegment(durationInFrames))
  }

  // ---------------------------------------------------------------------
  // Caption-line properties

  /** Every non-blank piece of the input is kept. */
  lemma {:induction false} NonBlankKeeps(pieces: seq<string>, x: string)
    requires x in pieces && HasNonSpace(x)
    ensures x in NonBlank(pieces)
  {
    if pieces[0] != x {
      assert x in pieces[1..];
      NonBlankKeeps(pieces[1..], x);
    }
  }

  /** With no blank piece, nothing is dropped. */
  lemma {:induction false} NonBlankIdentity(pieces: seq<string>)
    requires forall k :: 0 <= k < |pieces| ==> HasNonSpace(pieces[k])
    ensures NonBlank(pieces) == pieces
  {
    if |pieces| > 0 {
      NonBlankIdentity(pieces[1..]);
      assert [pieces[0]] + pieces[1..] == pieces;
    }
  }

  /** Filtering a concatenation filters each part, keeping their order. */
  lemma {:induction false} NonBlankAppend(a: seq<string>, b: seq<string>)
    ensures NonBlank(a + b) == NonBlank(a) + NonBlank(b)
  {
    if |a| == 0 {
      assert a + b == b;
    } else {
      assert (a + b)[0] == a[0];
      assert (a + b)[1..] == a[1..] + b;
      NonBlankAppend(a[1..], b);
    }
  }

  /** One piece is kept exactly when it has a non-whitespace character. */
  lemma NonBlankSingle(x: string)
    ensures NonBlank([x]) == if HasNonSpace(x) then [x] else []
  {
    assert [x][1..] == [];
  }

  /** The captions of two texts joined by a line break are the captions of
      the first followed by those of the second. */
  lemma CaptionLinesAround(a: string, b: string)
    ensures CaptionLines(a + "\n" + b) == CaptionLines(a) + CaptionLines(b)
  {
    SplitAround(a, b, '\n');
    assert a + "\n" + b == a + ['\n'] + b;
    NonBlankAppend(Split(a, '\n'), Split(b, '\n'));
  }

  /** A single line is a caption, untrimmed, exactly when it is not blank. */
  lemma CaptionLinesOfLine(x: string)
    requires '\n' !in x
    ensures CaptionLines(x) == if HasNonSpace(x) then [x] else []
  {
    SplitWithoutSeparator(x, '\n');
    NonBlankSingle(x);
  }

  /** A caption line is exactly a line of the script with a non-whitespace
      character; no caption spans a line break. */
  lemma CaptionLinesExact(script: string)
    ensures forall x :: x in CaptionLines(script) <==> x in Split(script, '\n') && HasNonSpace(x)
    ensures forall k :: 0 <= k < |CaptionLines(script)| ==> '\n' !in CaptionLines(script)[k]
  {
    var pieces := Split(script, '\n');
    forall x | x in pieces && HasNonSpace(x)
      ensures x in CaptionLines(script)
    {
      NonBlankKeeps(pieces, x);
    }
    forall k | 0 <= k < |CaptionLines(script)|
      ensures '\n' !in CaptionLines(script)[k]
    {
      var x := CaptionLines(script)[k];
      assert x in pieces;
    }
  }

  /** A script without blank lines is recovered by joining its caption lines. */
  lemma CaptionLinesOfPlainScript(script: string)
    requires forall k :: 0 <= k < |Split(script, '\n')| ==> HasNonSpace(Split(script, '\n')[k])
    ensures Join(CaptionLines(script), '\n') == script
  {
    NonBlankIdentity(Split(script, '\n'));
    JoinSplit(script, '\n');
  }

  // ---------------------------------------------------------------------
  // Layout properties

  /** One image segment per image, in order; `min(L, 5)` caption segments
      for the first caption lines, in order. */
  lemma ComposeCounts(script: string, niche: string, topic: string, images: seq<string>, d: int)
    ensures var c := Compose(script, niche, topic, images, d);
            var lines := CaptionLines(script);
            && |c.images| == |images|
            && |c.captions| == Min(|lines|, MaxCaptions) <= MaxCaptions
            && (forall i :: 0 <= i < |c.images| ==> c.images[i].kind == Image(images[i]))
            && (forall i :: 0 <= i < |c.captions| ==> c.captions[i].kind == Caption(lines[i]))
  {
  }

  /** Image `i` starts `180 * i` frames after the title, lasts 180 frames and
      fades over its first and last 30; caption `i` starts `150 * i` after the
      title, lasts 150 and fades over its first and last 20. */
  lemma ComposeFrames(script: string, niche: string, topic: string, images: seq<string>, d: int)
    ensures var c := Compose(script, niche, topic, images, d);
            && (forall i :: 0 <= i < |c.images| ==>
                  var s := 90 + 180 * i;
                  c.images[i].from == s && c.images[i].duration == 180
                  && c.images[i].envelope == Window(s, s + 30, s + 150, s + 180))
            && (forall i :: 0 <= i < |c.captions| ==>
                  var s := 90 + 150 * i;
                  c.captions[i].from == s && c.captions[i].duration == 150
                  && c.captions[i].envelope == Window(s, s + 20, s + 130, s + 150))
  {
  }

  /** The title fills frames `[0, 90)`; the outro fills the last 90 frames
      and ends exactly at `durationInFrames`. */
  lemma TitleAndOutro(script: string, niche: string, topic: string, images: seq<string>, d: int, f: int)
    ensures var c := Compose(script, niche, topic, images, d);
            && (Active(c.title, f) <==> 0 <= f < 90)
            && c.outro.duration == 90 && c.outro.from + c.outro.duration == d
            && (Active(c.outro, f) <==> d - 90 <= f < d)
  {
  }

  /** The images follow the title without gap or overlap: the first starts
      where the title ends and each ends where the next starts. */
  lemma ImagesContiguous(script: string, niche: string, topic: string, images: seq<string>, d: int)
    ensures var c := Compose(script, niche, topic, images, d);
            && (|c.images| > 0 ==> c.images[0].from == c.title.from + c.title.duration)
            && (forall i :: 0 <= i < |c.images| - 1 ==> c.images[i].from + c.images[i].duration == c.images[i + 1].from)
  {
  }

  /** Which image is on screen: frame `f` in `[90, 90 + 180 n)` shows exactly
      image `(f - 90) / 180`, and no other frame shows any image. */
  lemma ImageOnScreen(script: string, niche: string, topic: string, images: seq<string>, d: int, f: int, i: int)
    requires 0 <= i < |images|
    ensures var c := Compose(script, niche, topic, images, d);
            Active(c.images[i], f) <==> f >= 90 && (f - 90) / 180 == i
  {
    var c := Compose(script, niche, topic, images, d);
    assert c.images[i] == ImageSegment(images[i], i);
    if Active(c.images[i], f) {
      DivisionInWindow(f - 90, i);
    }
  }

  lemma DivisionInWindow(x: int, i: int)
    requires 180 * i <= x < 180 * i + 180
    ensures x / 180 == i
  {
    var q := x / 180;
    assert 180 * q <= x < 180 * q + 180;
  }

  /** Consequently no frame shows two images. */
  lemma AtMostOneImage(script: string, niche: string, topic: string, images: seq<string>, d: int, f: int, i: int, j: int)
    requires 0 <= i < |images| && 0 <= j < |images|
    ensures var c := Compose(script, niche, topic, images, d);
            Active(c.images[i], f) && Active(c.images[j], f) ==> i == j
  {
    ImageOnScreen(script, niche, topic, images, d, f, i);
    ImageOnScreen(script, niche, topic, images, d, f, j);
  }

  /** A clamped fade window: opacity within `[0, 1]`, positive exactly strictly
      inside the window, 1 on the hold, non-decreasing on the fade-in and
      non-increasing on the fade-out. */
  lemma WindowOpacity(a: int, b: int, c: int, e: int, f: int, g: int)
    requires a < b < c < e && f <= g
    ensures 0.0 <= Opacity(Window(a, b, c, e), f) <= 1.0
    ensures Opacity(Window(a, b, c, e), f) > 0.0 <==> a < f < e
    ensures b <= f <= c ==> Opacity(Window(a, b, c, e), f) == 1.0
    ensures g <= c ==> Opacity(Window(a, b, c, e), f) <= Opacity(Window(a, b, c, e), g)
    ensures b <= f ==> Opacity(Window(a, b, c, e), f) >= Opacity(Window(a, b, c, e), g)
  {
    Interpolation.FadeInOutBounds(f as real, a as real, b as real, c as real, e as real);
    Interpolation.FadeInOutShape(f as real, a as real, b as real, c as real, e as real);
    Interpolation.FadeInOutMonotone(f as real, g as real, a as real, b as real, c as real, e as real);
  }

  /** An image or caption is only ever visible while its sequence is mounted:
      its opacity is positive on a frame only if the segment is active then. */
  lemma VisibleOnlyWhenActive(script: string, niche: string, topic: string, images: seq<string>, d: int, f: int)
    ensures var c := Compose(script, niche, topic, images, d);
            && (forall i :: 0 <= i < |c.images| && Opacity(c.images[i].envelope, f) > 0.0 ==> Active(c.images[i], f))
            && (forall i :: 0 <= i < |c.captions| && Opacity(c.captions[i].envelope, f) > 0.0 ==> Active(c.captions[i], f))
  {
    var c := Compose(script, niche, topic, images, d);
    forall i | 0 <= i < |c.images| && Opacity(c.images[i].envelope, f) > 0.0
      ensures Active(c.images[i], f)
    {
      var s := c.images[i].from;
      WindowOpacity(s, s + 30, s + 150, s + 180, f, f);
    }
    forall i | 0 <= i < |c.captions| && Opacity(c.captions[i].envelope, f) > 0.0
      ensures Active(c.captions[i], f)
    {
      var s := c.captions[i].from;
      WindowOpacity(s, s + 20, s + 130, s + 150, f, f);
    }
  }

  /** The title fades in linearly over frames 0 to 30 and stays opaque after. */
  lemma TitleOpacity(topic: string, niche: string, f: int)
    requires f >= 0
    ensures f <= 30 ==> Opacity(TitleSegment(topic, niche).envelope, f) == f as real / 30.0
    ensures f >= 30 ==> Opacity(TitleSegment(topic, niche).envelope, f) == 1.0
    ensures 0.0 <= Opacity(TitleSegment(topic, niche).envelope, f) <= 1.0
  {
    Interpolation.RiseShape(f as real, 30.0);
  }
}
