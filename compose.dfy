/**
 * The line composer of `to_ass`: for each annotation, in order, whether it
 * produces anything, and which subtitle events it produces: the background
 * shape, then the text, then the link icon. Event timestamps are kept as
 * seconds and the numeric position and font-size tags are not modelled.
 */
module Compose {
  import opened Wrappers
  import opened Text
  import opened Encoders
  import opened Direction
  import opened Bubble
  import opened Records

  /** The two styles of the script header that annotation events use. */
  datatype StyleName = Annotations | Icons

  datatype Rect = Rect(left: real, top: real, right: real, bottom: real)

  /**
   * One `Dialogue:` event. Colours are the blue-green-red text of a colour
   * tag, present only when the tag is emitted; alphas are the two-digit
   * codes of `\1a` and `\3a`.
   */
  datatype Line =
    | Background(author: string, start: real, end: real, fillAlpha: string, fillColor: Option<string>,
                 inverseClip: Option<Rect>, shape: seq<Point>)
    | Caption(author: string, start: real, end: real, clip: Rect, color: Option<string>,
              resized: bool, body: string)
    | Icon(author: string, start: real, end: real, color: Option<string>, outlineAlpha: string,
           outlineColor: Option<string>)

  function StyleOf(line: Line): StyleName
  {
    if line.Icon? then Icons else Annotations
  }

  /** The background transparency, in percent, used when the record has none. */
  const DefaultBgAlpha: real := 100.0 - 80.0

  /** The reference text size; any other size adds a `\fs` tag. */
  const DefaultTextSize: real := 3.6107

  const Black: string := "000000"

  const ZeroWidthSpace: char := '\U{200b}'

  /** assnotations.py:182-187: an annotation is drawn only with both times, the whole box and a background colour. */
  predicate Eligible(a: Annotation)
  {
    && a.start.Some? && a.end.Some?
    && a.x.Some? && a.y.Some? && a.w.Some? && a.h.Some?
    && a.bgColor.Some?
  }

  /** `(text or "").strip()` is not empty. */
  predicate HasText(text: Option<string>)
  {
    Strip(text.GetOr("")) != ""
  }

  /** A background or outline colour tag: omitted for black. */
  function ColorTag(color: string): Option<string>
  {
    if color != Black then Some(RgbToBgr(color)) else None
  }

  /** A text or icon colour tag: omitted for black and for no colour. */
  function ForegroundTag(color: Option<string>): Option<string>
  {
    if color.None? || color.value == Black then None else Some(RgbToBgr(color.value))
  }

  /** A leading-whitespace marker: text that starts with whitespace gets a zero-width space in front. */
  function MarkLeadingSpace(text: string): string
  {
    if text != LStrip(text) then [ZeroWidthSpace] + text else text
  }

  /** The text as handed to the wrapper: right-stripped, blank lines widened, newlines as `\N`. */
  function NewlinesToTags(text: string): string
  {
    Replace(Replace(RStrip(text), "\n\n", "\\N\\N\\N\\N\\N"), "\n", "\\N")
  }

  /** The box in pixels, with its far corner. */
  function PixelBox(a: Annotation, width: real, height: real): Rect
    requires Eligible(a)
  {
    var x, y := PercentToPixels(width, a.x.value), PercentToPixels(height, a.y.value);
    Rect(x, y, x + PercentToPixels(width, a.w.value), y + PercentToPixels(height, a.h.value))
  }

  function Inset(r: Rect, d: real): Rect
  {
    Rect(r.left + d, r.top + d, r.right - d, r.bottom - d)
  }

  /** The outline padding: half a percent of the canvas height. */
  function Outline(height: real): real
  {
    PercentToPixels(height, 0.5)
  }

  /** `annotation["text_size"] or 3.6107`: a missing or zero size counts as the reference size. */
  function TextSizeOr(size: Option<real>): real
  {
    if size.Some? && size.value != 0.0 then size.value else DefaultTextSize
  }

  /** Whether the annotation's type is `highlight`. */
  predicate IsHighlight(a: Annotation)
  {
    a.kind == Some("highlight")
  }

  /** The clip rectangle: the box inset by the outline, or by half of it for a highlight. */
  function ClipRect(a: Annotation, width: real, height: real): Rect
    requires Eligible(a)
  {
    Inset(PixelBox(a, width, height), if IsHighlight(a) then Outline(height) / 2.0 else Outline(height))
  }

  /** The text and icon colour: for a highlight it falls back to the highlight font colour, then the background colour. */
  function ForegroundColor(a: Annotation): Option<string>
  {
    if IsHighlight(a) then Or(Or(a.fgColor, a.highlightFontColor), a.bgColor) else a.fgColor
  }

  /** The background event: a box, or a speech bubble when the record has an anchor. */
  function BackgroundLine(a: Annotation, width: real, height: real): Line
    requires Eligible(a)
  {
    var box := PixelBox(a, width, height);
    var w, h := PercentToPixels(width, a.w.value), PercentToPixels(height, a.h.value);
    var shape :=
      if a.sx.Some? && a.sy.Some? then
        SpeechBubble(box.left, box.top, box.right, box.bottom, w, h,
                     PercentToPixels(width, a.sx.value), PercentToPixels(height, a.sy.value), DefaultPadding)
      else Rectangle(box.left, box.top, box.right, box.bottom);
    Background(a.author.GetOr(""), a.start.value, a.end.value, AlphaToHex(a.bgAlpha.GetOr(DefaultBgAlpha)),
               ColorTag(a.bgColor.value), if IsHighlight(a) then Some(ClipRect(a, width, height)) else None, shape)
  }

  /** The text event, when there is visible text. */
  function CaptionLines(a: Annotation, width: real, height: real): seq<Line>
    requires Eligible(a)
  {
    if HasText(a.text) then
      [Caption(a.author.GetOr(""), a.start.value, a.end.value, ClipRect(a, width, height),
               ForegroundTag(ForegroundColor(a)), TextSizeOr(a.textSize) != DefaultTextSize,
               NewlinesToTags(MarkLeadingSpace(a.text.value)))]
    else []
  }

  /** The icon event, when there is a link. */
  function IconLines(a: Annotation): seq<Line>
    requires Eligible(a)
  {
    if Truthy(a.url) then
      [Icon(a.author.GetOr(""), a.start.value, a.end.value, ForegroundTag(ForegroundColor(a)),
            AlphaToHex(a.bgAlpha.GetOr(DefaultBgAlpha)), ColorTag(a.bgColor.value))]
    else []
  }

  /**
   * The events one annotation produces, stated declaratively: nothing for an
   * ineligible annotation; otherwise a background event, a text event when
   * there is visible text, and an icon event when there is a link.
   */
  function LinesFor(a: Annotation, width: real, height: real): seq<Line>
  {
    if !Eligible(a) then []
    else [BackgroundLine(a, width, height)] + CaptionLines(a, width, height) + IconLines(a)
  }

  /** `f` applied to every element, the results concatenated in order. */
  function ConcatMap<A, B>(f: A -> seq<B>, xs: seq<A>): seq<B>
  {
    if xs == [] then [] else ConcatMap(f, xs[..|xs| - 1]) + f(xs[|xs| - 1])
  }

  lemma {:induction false} ConcatMapAppend<A, B>(f: A -> seq<B>, p: seq<A>, q: seq<A>)
    ensures ConcatMap(f, p + q) == ConcatMap(f, p) + ConcatMap(f, q)
    decreases |q|
  {
    if q == [] {
      assert p + q == p;
    } else {
      var pq := p + q;
      assert pq[..|pq| - 1] == p + q[..|q| - 1] && pq[|pq| - 1] == q[|q| - 1];
      ConcatMapAppend(f, p, q[..|q| - 1]);
    }
  }

  lemma ConcatMapSkip<A, B>(f: A -> seq<B>, p: seq<A>, x: A, q: seq<A>)
    requires f(x) == []
    ensures ConcatMap(f, p + [x] + q) == ConcatMap(f, p + q)
  {
    ConcatMapAppend(f, p + [x], q);
    ConcatMapAppend(f, p, [x]);
    ConcatMapAppend(f, p, q);
    assert [x][..0] == [];
  }

  /** The events of a list of annotations, in list order. */
  function AllLines(annotations: seq<Annotation>, width: real, height: real): seq<Line>
  {
    ConcatMap(a => LinesFor(a, width, height), annotations)
  }

  /** The record as the loop body leaves it before the text: default transparency filled in, highlight colour fallback applied. */
  function Prepared(a: Annotation): Annotation
  {
    a.(bgAlpha := Some(a.bgAlpha.GetOr(DefaultBgAlpha)), fgColor := ForegroundColor(a))
  }

  /**
   * assnotations.py:188-215, `to_ass`'s loop, for an annotation that passed the
   * three checks: the box in pixels, the default transparency, the highlight clip
   * and colour fallback, and the background event.
   */
  method ComposeBackground(annotation: Annotation, width: real, height: real)
    returns (a: Annotation, background: Line, clip: Rect)
    requires Eligible(annotation)
    ensures a == Prepared(annotation)
    ensures background == BackgroundLine(annotation, width, height)
    ensures clip == ClipRect(annotation, width, height)
  {
    a := annotation;
    var x := PercentToPixels(width, a.x.value);
    var y := PercentToPixels(height, a.y.value);
    var w := PercentToPixels(width, a.w.value);
    var h := PercentToPixels(height, a.h.value);
    var x2 := x + w;
    var y2 := y + h;
    assert Rect(x, y, x2, y2) == PixelBox(annotation, width, height);
    var clipOutline := PercentToPixels(height, 0.5);
    var author := if Truthy(a.author) then a.author.value else "";
    if a.bgAlpha.None? {
      a := a.(bgAlpha := Some(100.0 - 80.0));
    }
    var fillAlpha := AlphaToHex(a.bgAlpha.value);
    assert fillAlpha == AlphaToHex(annotation.bgAlpha.GetOr(DefaultBgAlpha));
    var fillColor: Option<string> := None;
    if a.bgColor.value != Black {
      fillColor := Some(RgbToBgr(a.bgColor.value));
    }
    assert fillColor == ColorTag(annotation.bgColor.value);
    var inverseClip: Option<Rect> := None;
    if a.kind == Some("highlight") {
      clipOutline := clipOutline / 2.0;
      inverseClip := Some(Rect(x + clipOutline, y + clipOutline, x2 - clipOutline, y2 - clipOutline));
      a := a.(fgColor := Or(Or(a.fgColor, a.highlightFontColor), a.bgColor));
    }
    assert a == Prepared(annotation);
    assert clipOutline == if IsHighlight(annotation) then Outline(height) / 2.0 else Outline(height);
    var shape: seq<Point>;
    if a.sx.Some? && a.sy.Some? {
      var sx := PercentToPixels(width, a.sx.value);
      var sy := PercentToPixels(height, a.sy.value);
      shape := SpeechBubble(x, y, x2, y2, w, h, sx, sy, DefaultPadding);
    } else {
      shape := Rectangle(x, y, x2, y2);
    }
    assert shape == BackgroundLine(annotation, width, height).shape;
    background := Background(author, a.start.value, a.end.value, fillAlpha, fillColor, inverseClip, shape);
    clip := Rect(x + clipOutline, y + clipOutline, x2 - clipOutline, y2 - clipOutline);
  }

  /**
   * assnotations.py:216-239, `to_ass`'s loop: the text event when there is visible
   * text (with the leading-space marker put into the record's text), then
   * the icon event when there is a link.
   */
  method ComposeForeground(ghost annotation: Annotation, prepared: Annotation, clip: Rect,
                           ghost width: real, ghost height: real)
    returns (events: seq<Line>)
    requires Eligible(annotation) && prepared == Prepared(annotation)
    requires clip == ClipRect(annotation, width, height)
    ensures events == CaptionLines(annotation, width, height) + IconLines(annotation)
  {
    var a := prepared;
    var author := if Truthy(a.author) then a.author.value else "";
    var fgColor: Option<string> := None;
    if a.fgColor.Some? && a.fgColor.value != Black {
      fgColor := Some(RgbToBgr(a.fgColor.value));
    }
    events := [];
    if Strip(if Truthy(a.text) then a.text.value else "") != "" {
      var resized := (if a.textSize.Some? && a.textSize.value != 0.0 then a.textSize.value else 3.6107) != 3.6107;
      if a.text.value != LStrip(a.text.value) {
        a := a.(text := Some([ZeroWidthSpace] + a.text.value));
      }
      var body := NewlinesToTags(a.text.value);
      events := events + [Caption(author, a.start.value, a.end.value, clip, fgColor, resized, body)];
    }
    assert events == CaptionLines(annotation, width, height);
    if Truthy(a.url) {
      var outlineColor: Option<string> := None;
      if a.bgColor.value != Black {
        outlineColor := Some(RgbToBgr(a.bgColor.value));
      }
      events := events + [Icon(author, a.start.value, a.end.value, fgColor, AlphaToHex(a.bgAlpha.value), outlineColor)];
    }
  }

  /**
   * `to_ass` after the header: the events of every annotation that passes
   * the three presence checks, annotation by annotation.
   */
  method ToAss(annotations: seq<Annotation>, width: real, height: real) returns (lines: seq<Line>)
    ensures lines == AllLines(annotations, width, height)
  {
    lines := [];
    for i := 0 to |annotations|
      invariant lines == AllLines(annotations[..i], width, height)
    {
      var a := annotations[i];
      assert annotations[..i + 1] == annotations[..i] + [a];
      AllLinesSnoc(annotations[..i], a, width, height);
      if a.start.None? || a.end.None? {
        continue;
      }
      if a.x.None? || a.y.None? || a.w.None? || a.h.None? {
        continue;
      }
      if a.bgColor.None? {
        continue;
      }
      var prepared, background, clip := ComposeBackground(a, width, height);
      var foreground := ComposeForeground(a, prepared, clip, width, height);
      var events := [background] + foreground;
      LinesForEligible(a, width, height);
      assert events == LinesFor(a, width, height);
      lines := lines + events;
    }
    assert annotations[..|annotations|] == annotations;
  }

  /**
   * What one annotation emits, in order: nothing at all when it is
   * ineligible; otherwise exactly one background event in the Annotations
   * style, then a text event in that style if and only if the text has a
   * visible character, then an icon event in the Icons style if and only if
   * it has a link.
   */
  lemma LinesForShape(a: Annotation, width: real, height: real)
    ensures LinesFor(a, width, height) == [] <==> !Eligible(a)
    ensures Eligible(a) ==>
      var ls := LinesFor(a, width, height);
      && |ls| == 1 + (if HasText(a.text) then 1 else 0) + (if Truthy(a.url) then 1 else 0)
      && ls[0].Background? && StyleOf(ls[0]) == Annotations
      && (forall i :: 0 < i < |ls| ==> !ls[i].Background?)
      && (HasText(a.text) ==> ls[1].Caption? && StyleOf(ls[1]) == Annotations)
      && (Truthy(a.url) ==> ls[|ls| - 1].Icon? && StyleOf(ls[|ls| - 1]) == Icons)
      && (forall i :: 0 <= i < |ls| ==> (ls[i].Caption? <==> i == 1 && HasText(a.text)))
      && (forall i :: 0 <= i < |ls| ==> (ls[i].Icon? <==> i == |ls| - 1 && Truthy(a.url)))
  {
  }

  /** The events of two lists of annotations are the events of the first followed by those of the second. */
  lemma {:induction false} AllLinesAppend(p: seq<Annotation>, q: seq<Annotation>, width: real, height: real)
    ensures AllLines(p + q, width, height) == AllLines(p, width, height) + AllLines(q, width, height)
  {
    ConcatMapAppend(a => LinesFor(a, width, height), p, q);
  }

  /** The events of an eligible annotation: its background event, then the foreground events. */
  lemma LinesForEligible(a: Annotation, width: real, height: real)
    requires Eligible(a)
    ensures LinesFor(a, width, height) == [BackgroundLine(a, width, height)] + (CaptionLines(a, width, height) + IconLines(a))
  {
  }

  /** One more annotation adds its own events at the end. */
  lemma AllLinesSnoc(p: seq<Annotation>, a: Annotation, width: real, height: real)
    ensures AllLines(p + [a], width, height) == AllLines(p, width, height) + LinesFor(a, width, height)
  {
    AllLinesAppend(p, [a], width, height);
    assert AllLines([a], width, height) == LinesFor(a, width, height) + AllLines([], width, height);
  }

  /** An ineligible annotation is skipped without a trace: the others' events are as if it were not there. */
  lemma SkippedAnnotationVanishes(p: seq<Annotation>, a: Annotation, q: seq<Annotation>, width: real, height: real)
    requires !Eligible(a)
    ensures AllLines(p + [a] + q, width, height) == AllLines(p + q, width, height)
  {
    assert LinesFor(a, width, height) == [];
    ConcatMapSkip(b => LinesFor(b, width, height), p, a, q);
  }

  function CountBackgrounds(lines: seq<Line>): nat
  {
    if lines == [] then 0 else CountBackgrounds(lines[..|lines| - 1]) + (if lines[|lines| - 1].Background? then 1 else 0)
  }

  function CountEligible(annotations: seq<Annotation>): nat
  {
    if annotations == [] then 0
    else CountEligible(annotations[..|annotations| - 1]) + (if Eligible(annotations[|annotations| - 1]) then 1 else 0)
  }

  lemma {:induction false} CountBackgroundsAppend(p: seq<Line>, q: seq<Line>)
    ensures CountBackgrounds(p + q) == CountBackgrounds(p) + CountBackgrounds(q)
    decreases |q|
  {
    if q == [] {
      assert p + q == p;
    } else {
      assert (p + q)[..|p + q| - 1] == p + q[..|q| - 1];
      CountBackgroundsAppend(p, q[..|q| - 1]);
    }
  }

  /** One background event per eligible annotation, and no other background events. */
  lemma {:induction false} OneBackgroundPerEligible(annotations: seq<Annotation>, width: real, height: real)
    ensures CountBackgrounds(AllLines(annotations, width, height)) == CountEligible(annotations)
  {
    if annotations != [] {
      var init, a := annotations[..|annotations| - 1], annotations[|annotations| - 1];
      OneBackgroundPerEligible(init, width, height);
      var ls := LinesFor(a, width, height);
      CountBackgroundsAppend(AllLines(init, width, height), ls);
      LinesForShape(a, width, height);
      if Eligible(a) {
        CountBackgroundsAppend([ls[0]], ls[1..]);
        assert [ls[0]] + ls[1..] == ls;
        NoBackgrounds(ls[1..]);
        assert CountBackgrounds([ls[0]]) == CountBackgrounds([]) + 1;
      }
    }
  }

  lemma {:induction false} NoBackgrounds(lines: seq<Line>)
    requires forall i :: 0 <= i < |lines| ==> !lines[i].Background?
    ensures CountBackgrounds(lines) == 0
  {
    if lines != [] {
      NoBackgrounds(lines[..|lines| - 1]);
    }
  }

  /**
   * The clip of a highlight is inset by half the outline and also cut out of
   * the background as an inverse clip; any other annotation's clip is inset
   * by the whole outline and its background has no inverse clip.
   */
  lemma HighlightClip(a: Annotation, width: real, height: real)
    requires Eligible(a)
    ensures
      var box, o := PixelBox(a, width, height), PercentToPixels(height, 0.5);
      var bg := LinesFor(a, width, height)[0];
      && (IsHighlight(a) ==> bg.inverseClip == Some(Inset(box, o / 2.0)) && ClipRect(a, width, height) == Inset(box, o / 2.0))
      && (!IsHighlight(a) ==> bg.inverseClip.None? && ClipRect(a, width, height) == Inset(box, o))
      && (HasText(a.text) ==> LinesFor(a, width, height)[1].clip == ClipRect(a, width, height))
  {
  }

  /**
   * Text and icon colour of a highlight: the first of the foreground, the
   * highlight font and the background colour that is set, so never missing
   * when the background colour is set; other annotations use the foreground colour.
   */
  lemma ForegroundFallback(a: Annotation)
    ensures IsHighlight(a) ==>
      ForegroundColor(a) == if Truthy(a.fgColor) then a.fgColor
                            else if Truthy(a.highlightFontColor) then a.highlightFontColor
                            else a.bgColor
    ensures IsHighlight(a) && Truthy(a.bgColor) ==> Truthy(ForegroundColor(a))
    ensures !IsHighlight(a) ==> ForegroundColor(a) == a.fgColor
  {
  }

  /** Without a transparency the background and the icon outline get the default 20, that is alpha code `33`. */
  lemma DefaultTransparency(a: Annotation, width: real, height: real)
    requires Eligible(a) && a.bgAlpha.None?
    ensures LinesFor(a, width, height)[0].fillAlpha == "33"
    ensures Truthy(a.url) ==> LinesFor(a, width, height)[|LinesFor(a, width, height)| - 1].outlineAlpha == "33"
  {
    AlphaToHexExamples();
  }

  /**
   * A six-digit background colour is emitted swapped exactly once: swapping
   * the emitted tag back gives the record's colour; black emits no tag.
   */
  lemma BackgroundColorSwappedOnce(a: Annotation, width: real, height: real)
    requires Eligible(a) && |a.bgColor.value| == 6
    ensures
      var bg := LinesFor(a, width, height)[0];
      && (bg.fillColor.None? <==> a.bgColor.value == Black)
      && (bg.fillColor.Some? ==> RgbToBgr(bg.fillColor.value) == a.bgColor.value)
  {
    RgbToBgrInvolution(a.bgColor.value);
  }

  /** The text handed to the wrapper holds no newline: every line break became a `\N` tag. */
  lemma CaptionHasNoNewline(a: Annotation, width: real, height: real)
    requires Eligible(a) && HasText(a.text)
    ensures '\n' !in LinesFor(a, width, height)[1].body
  {
    var s := Replace(RStrip(MarkLeadingSpace(a.text.value)), "\n\n", "\\N\\N\\N\\N\\N");
    ReplaceRemoves(s, '\n', "\\N");
  }

  /** A text that starts with whitespace is handed on with a zero-width space in front, so its indent survives. */
  lemma LeadingSpaceMarked(a: Annotation, width: real, height: real)
    requires Eligible(a) && HasText(a.text) && IsSpace(a.text.value[0])
    ensures |LinesFor(a, width, height)[1].body| >= 1
    ensures LinesFor(a, width, height)[1].body[0] == ZeroWidthSpace
  {
    var t := a.text.value;
    LStripShorter(t[1..]);
    assert LStrip(t) != t;
    var m := [ZeroWidthSpace] + t;
    RStripKeepsFirst(m);
    var u := RStrip(m);
    ReplaceKeepsFirst(u, "\n\n", "\\N\\N\\N\\N\\N");
    ReplaceKeepsFirst(Replace(u, "\n\n", "\\N\\N\\N\\N\\N"), "\n", "\\N");
  }

  lemma {:induction false} LStripShorter(s: string)
    ensures |LStrip(s)| <= |s|
  {
    if s != [] && IsSpace(s[0]) {
      LStripShorter(s[1..]);
    }
  }

  lemma {:induction false} RStripKeepsFirst(s: string)
    requires s != [] && !IsSpace(s[0])
    ensures RStrip(s) != [] && RStrip(s)[0] == s[0]
  {
    if IsSpace(s[|s| - 1]) {
      RStripKeepsFirst(s[..|s| - 1]);
    }
  }

  lemma ReplaceKeepsFirst(s: string, pat: string, rep: string)
    requires s != [] && |pat| > 0 && s[0] != pat[0]
    ensures Replace(s, pat, rep) != [] && Replace(s, pat, rep)[0] == s[0]
  {
  }

  /**
   * A box without anchor from 1 s to 2 s at 10 %, 10 % sized 20 % by 10 %,
   * black, on a 1440 by 1080 canvas: one background event whose outline is
   * the rectangle from (144, 108) to (432, 216), with the default alpha code
   * and no colour tag.
   */
  lemma PlainBoxExample()
    ensures
      var a := Annotation(Some(1), None, None, None, None, Some(1.0), Some(2.0),
                          Some(10.0), Some(10.0), Some(20.0), Some(10.0), None, None,
                          None, Some(Black), None, None, None, None);
      LinesFor(a, 1440.0, 1080.0)
        == [Background("", 1.0, 2.0, "33", None, None, Rectangle(144.0, 108.0, 432.0, 216.0))]
  {
    AlphaToHexExamples();
    StripEmptyIffBlank("");
  }
}
