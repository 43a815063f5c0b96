/** One press of the export button (`exportSVGtoPNG`), from the SVG source to
    the file the browser is asked to save: the guard on the source, the size
    chosen in `img.onload`, the canvas size that size and the preset scale give,
    and the name `generateFilename` gives the file. The DOM reads and the image
    decode are parameters. */
module Export {
  import opened Wrappers
  import opened Text
  import opened Number
  import opened ViewBox
  import opened Quality
  import opened Filename

  /** The width and height of a new canvas before anything is assigned. */
  const DefaultWidth: nat := 300
  const DefaultHeight: nat := 150

  /** `width` and `height` in `img.onload`: from the first `viewBox` attribute
      when the scan finds one, otherwise the natural size of the decoded image. */
  function ChosenSize(svg: string, naturalWidth: nat, naturalHeight: nat, reading: Reading): (Number, Number) {
    match Match(svg)
    case Some(found) => ViewBoxSize(found.capture, reading)
    case None => (Finite(naturalWidth as real), Finite(naturalHeight as real))
  }

  /** `QUALITY_PRESETS[quality]` as a number; a label that is not a preset gives
      `undefined`, which multiplies to `NaN`. */
  function ScaleValue(quality: string): Number {
    match Scale(quality)
    case Some(k) => Finite(k as real)
    case None => NaN
  }

  /** What `canvas.width` and `canvas.height` hold after
      `canvas.width = width * scale; canvas.height = height * scale`. */
  function CanvasSize(svg: string, naturalWidth: nat, naturalHeight: nat, quality: string, reading: Reading): (nat, nat) {
    var (w, h) := ChosenSize(svg, naturalWidth, naturalHeight, reading);
    var k := ScaleValue(quality);
    (CanvasDimension(Times(w, k), DefaultWidth), CanvasDimension(Times(h, k), DefaultHeight))
  }

  /** How a press of the button ends. `NoSvgFound`: the alert, nothing else
      happens. `LoadError`: the image does not decode and the error alert is
      shown. `NoFile`: the canvas has no pixels, `toBlob` hands `null` to its
      callback and `URL.createObjectURL(null)` throws, so nothing is saved.
      `Saved`: a PNG of that size is downloaded under that name. */
  datatype Outcome =
    | NoSvgFound
    | LoadError
    | NoFile(width: nat, height: nat)
    | Saved(name: string, width: nat, height: nat)

  /** The export. `svgCode` is what `getSVGCode` returned (`None` for `null`),
      `loads` whether the browser decodes it as an image, `clickQuality` the
      label selected when the button is pressed (it fixes the scale) and
      `saveQuality` the label selected when the PNG is ready (it goes into the
      name); `title` and `date` are what `generateFilename` reads. */
  function Export(svgCode: Option<string>, loads: bool, naturalWidth: nat, naturalHeight: nat,
                  clickQuality: string, saveQuality: string, title: Option<string>, date: string,
                  reading: Reading): (o: Outcome)
    ensures o.NoSvgFound? <==> svgCode.None? || svgCode.value == []
    ensures o.LoadError? <==> svgCode.Some? && svgCode.value != [] && !loads
    ensures o.Saved? ==> o.name == Filename.Filename(title, date, saveQuality)
    ensures o.Saved? ==> 0 < o.width <= MaxDimension && 0 < o.height <= MaxDimension
    ensures o.NoFile? ==> o.width == 0 || o.height == 0
    ensures o.Saved? || o.NoFile? ==>
              svgCode.Some? && (o.width, o.height)
                == CanvasSize(svgCode.value, naturalWidth, naturalHeight, clickQuality, reading)
  {
    match svgCode
    case None => NoSvgFound
    case Some(svg) =>
      if svg == [] then NoSvgFound
      else if !loads then LoadError
      else
        var (w, h) := CanvasSize(svg, naturalWidth, naturalHeight, clickQuality, reading);
        if w == 0 || h == 0 then NoFile(w, h)
        else Saved(Filename.Filename(title, date, saveQuality), w, h)
  }

  /** A whole number of pixels times the scale, within the canvas limit, is the
      canvas dimension it is assigned to. */
  lemma {:induction false} ScaledDimension(n: nat, k: nat, default: nat)
    requires default <= MaxDimension && n * k <= MaxDimension
    ensures CanvasDimension(Times(Finite(n as real), Finite(k as real)), default) == n * k
  {
    assert (n as real) * (k as real) == (n * k) as real;
  }

  /** The canvas is the chosen width and height each multiplied by the preset
      scale of the label, when both products are within the canvas limit. */
  lemma {:induction false} CanvasScaled(svg: string, naturalWidth: nat, naturalHeight: nat, quality: string,
                     reading: Reading, width: nat, height: nat)
    requires ChosenSize(svg, naturalWidth, naturalHeight, reading) == (Finite(width as real), Finite(height as real))
    requires Scale(quality).Some?
    requires width * Scale(quality).value <= MaxDimension && height * Scale(quality).value <= MaxDimension
    ensures CanvasSize(svg, naturalWidth, naturalHeight, quality, reading)
              == (width * Scale(quality).value, height * Scale(quality).value)
  {
    var k := Scale(quality).value;
    ScaledDimension(width, k, DefaultWidth);
    ScaledDimension(height, k, DefaultHeight);
  }

  /** A size `NaN` gives a canvas dimension of 0, whatever the scale. */
  lemma {:induction false} NaNDimension(k: Number, default: nat)
    requires default <= MaxDimension
    ensures CanvasDimension(Times(NaN, k), default) == 0
  {
  }

  /** Without a `viewBox` attribute, the image's natural size times the scale
      is saved, under the name for the label selected at save time. */
  lemma {:induction false} NaturalSizeSaved(svg: string, naturalWidth: nat, naturalHeight: nat,
                         clickQuality: string, saveQuality: string, title: Option<string>, date: string,
                         reading: Reading)
    requires svg != [] && Match(svg).None?
    requires Scale(clickQuality).Some?
    requires 0 < naturalWidth * Scale(clickQuality).value <= MaxDimension
    requires 0 < naturalHeight * Scale(clickQuality).value <= MaxDimension
    ensures var k := Scale(clickQuality).value;
      Export(Some(svg), true, naturalWidth, naturalHeight, clickQuality, saveQuality, title, date, reading)
        == Saved(Filename.Filename(title, date, saveQuality), naturalWidth * k, naturalHeight * k)
  {
    CanvasScaled(svg, naturalWidth, naturalHeight, clickQuality, reading, naturalWidth, naturalHeight);
  }

  /** As written, an SVG whose `viewBox` value holds no backslash (every
      ordinary one) gives a canvas of 0 by 0 pixels and no file, whatever the
      scale. */
  lemma {:induction false} AsWrittenNoFile(svg: string, naturalWidth: nat, naturalHeight: nat,
                        clickQuality: string, saveQuality: string, title: Option<string>, date: string)
    requires svg != [] && Match(svg).Some?
    requires forall k :: 0 <= k < |Match(svg).value.capture| ==> Match(svg).value.capture[k] != '\\'
    ensures Export(Some(svg), true, naturalWidth, naturalHeight, clickQuality, saveQuality, title, date, AsWritten)
              == NoFile(0, 0)
  {
    AsWrittenPlainValue(Match(svg).value.capture);
    var k := ScaleValue(clickQuality);
    NaNDimension(k, DefaultWidth);
    NaNDimension(k, DefaultHeight);
  }

  /** The SVG source `pre viewBox="min-x min-y width height" post`. */
  function WithViewBox(pre: string, minX: string, minY: string, width: nat, height: nat, post: string): string {
    pre + Attribute + ['"'] + Join(Fields(minX, minY, width, height), " ") + ['"'] + post
  }

  /** Corrected, an SVG whose first `viewBox` gives whole-number width and
      height is saved at that size times the scale. */
  lemma {:induction false} IntendedSaved(pre: string, minX: string, minY: string, width: nat, height: nat, post: string,
                      naturalWidth: nat, naturalHeight: nat,
                      clickQuality: string, saveQuality: string, title: Option<string>, date: string)
    requires 'B' !in pre
    requires Plain(Whitespace, minX) && Plain(Whitespace, minY) && QuoteFree(minX) && QuoteFree(minY)
    requires Scale(clickQuality).Some?
    requires 0 < width * Scale(clickQuality).value <= MaxDimension
    requires 0 < height * Scale(clickQuality).value <= MaxDimension
    ensures var k := Scale(clickQuality).value;
      Export(Some(WithViewBox(pre, minX, minY, width, height, post)), true, naturalWidth, naturalHeight,
             clickQuality, saveQuality, title, date, Intended)
        == Saved(Filename.Filename(title, date, saveQuality), width * k, height * k)
  {
    var v := Join(Fields(minX, minY, width, height), " ");
    var svg := WithViewBox(pre, minX, minY, width, height, post);
    ValueQuoteFree(minX, minY, width, height, Whitespace);
    MatchAfter(pre, '"', v, '"', post);
    IntendedValue(minX, minY, width, height);
    CanvasScaled(svg, naturalWidth, naturalHeight, clickQuality, Intended, width, height);
  }

  /** As written, the same SVG is not saved when its first two fields hold no
      backslash. */
  lemma {:induction false} AsWrittenWithViewBox(pre: string, minX: string, minY: string, width: nat, height: nat, post: string,
                             naturalWidth: nat, naturalHeight: nat,
                             clickQuality: string, saveQuality: string, title: Option<string>, date: string)
    requires 'B' !in pre
    requires Plain(BackslashS, minX) && Plain(BackslashS, minY) && QuoteFree(minX) && QuoteFree(minY)
    ensures Export(Some(WithViewBox(pre, minX, minY, width, height, post)), true, naturalWidth, naturalHeight,
                   clickQuality, saveQuality, title, date, AsWritten)
              == NoFile(0, 0)
  {
    var v := Join(Fields(minX, minY, width, height), " ");
    var svg := WithViewBox(pre, minX, minY, width, height, post);
    ValueQuoteFree(minX, minY, width, height, Whitespace);
    MatchAfter(pre, '"', v, '"', post);
    NoBackslash(minX, minY, width, height);
    AsWrittenNoFile(svg, naturalWidth, naturalHeight, clickQuality, saveQuality, title, date);
  }

  /** A value written with spaces from fields without a backslash holds none. */
  lemma {:induction false} NoBackslash(minX: string, minY: string, width: nat, height: nat)
    requires Plain(BackslashS, minX) && Plain(BackslashS, minY)
    ensures var v := Join(Fields(minX, minY, width, height), " ");
      forall k :: 0 <= k < |v| ==> v[k] != '\\'
  {
    NumeralPlain(width, BackslashS);
    NumeralPlain(height, BackslashS);
    var fs := Fields(minX, minY, width, height);
    var v := Join(fs, " ");
    assert Join(fs[3..], " ") == fs[3];
    assert Join(fs[2..], " ") == fs[2] + " " + fs[3];
    assert Join(fs[1..], " ") == fs[1] + " " + (fs[2] + " " + fs[3]);
    assert v == fs[0] + " " + (fs[1] + " " + (fs[2] + " " + fs[3]));
  }

  /** An SVG sized only by its `width` and `height` attributes, 300 by 150. */
  const SizedSvg: string := "<svg width=\"300\" height=\"150\"></svg>"

  /** With no title on the page, or a blank one, the file is named after
      `svg-export`. */
  lemma {:induction false} UntitledName(title: Option<string>, date: string, quality: string)
    requires title.None? || AllIn(Space, title.value)
    ensures Filename.Filename(title, date, quality) == DefaultTitle + "-" + date + "-" + quality + ".png"
  {
    MissingTitleSlug(title);
  }

  /** The decimal numerals of 100 and 50. */
  lemma {:induction false} ExampleNumerals()
    ensures NatToString(100) == "100" && NatToString(50) == "50"
  {
    assert NatToString(1) == "1";
    assert NatToString(10) == "10";
    assert NatToString(5) == "5";
  }

  /** The value `0 0 100 50` written out from its fields. */
  lemma {:induction false} ExampleValue()
    ensures Join(Fields("0", "0", 100, 50), " ") == "0 0 100 50"
  {
    ExampleNumerals();
    var fs := Fields("0", "0", 100, 50);
    assert Join(fs[3..], " ") == "50";
    assert Join(fs[2..], " ") == "100 50";
    assert Join(fs[1..], " ") == "0 100 50";
  }

  /** The SVG built with `viewBox="0 0 100 50"` and nothing else is
      `<svg viewBox="0 0 100 50"></svg>`. */
  lemma {:induction false} ViewBoxSvgText()
    ensures WithViewBox("<svg ", "0", "0", 100, 50, "></svg>") == "<svg viewBox=\"0 0 100 50\"></svg>"
  {
    ExampleValue();
  }

  /** With the label `2x`, the SVG `<svg viewBox="0 0 100 50"></svg>` is saved
      at 200 by 100 pixels when the value is read as intended. */
  lemma {:induction false} ViewBoxExample(title: Option<string>, date: string)
    ensures Export(Some(WithViewBox("<svg ", "0", "0", 100, 50, "></svg>")), true, 0, 0,
                   "2x", "2x", title, date, Intended)
              == Saved(Filename.Filename(title, date, "2x"), 200, 100)
  {
    IntendedSaved("<svg ", "0", "0", 100, 50, "></svg>", 0, 0, "2x", "2x", title, date);
  }

  /** As written, the same SVG gives a canvas of 0 by 0 pixels and no file. */
  lemma {:induction false} ViewBoxExampleAsWritten(title: Option<string>, date: string)
    ensures Export(Some(WithViewBox("<svg ", "0", "0", 100, 50, "></svg>")), true, 0, 0,
                   "2x", "2x", title, date, AsWritten)
              == NoFile(0, 0)
  {
    AsWrittenWithViewBox("<svg ", "0", "0", 100, 50, "></svg>", 0, 0, "2x", "2x", title, date);
  }

  /** The SVG sized only by `width` and `height` holds no `viewBox` attribute. */
  lemma {:induction false} SizedSvgShape()
    ensures SizedSvg != [] && Match(SizedSvg).None?
  {
    MatchNoB(SizedSvg);
  }

  /** Without a `viewBox`, an image of 300 by 150 pixels exported at `3x` is
      saved at 900 by 450 pixels, whichever reading of the value is used. */
  lemma {:induction false} NaturalExample(title: Option<string>, date: string, reading: Reading)
    ensures Export(Some(SizedSvg), true, 300, 150, "3x", "3x", title, date, reading)
              == Saved(Filename.Filename(title, date, "3x"), 900, 450)
  {
    SizedSvgShape();
    NaturalSizeSaved(SizedSvg, 300, 150, "3x", "3x", title, date, reading);
  }
}
