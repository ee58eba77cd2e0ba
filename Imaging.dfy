/** The three decisions of the image worker that do not depend on pixels:
    colour-mode normalisation, the size cap, and the choice of output format
    and path (app.py, inside `process_image_task`). */
module Imaging {
  import opened Text
  import opened Paths
  import opened Wrappers

  /** What the worker inspects of a PIL image: its mode string ("RGB", "RGBA",
      "LA", "P", "L", "CMYK", ...), its size, and whether its `info`
      dictionary has a 'transparency' entry. Pixels are not modelled. */
  datatype Image = Image(mode: string, width: nat, height: nat, hasTransparency: bool)

  /** The three ways the worker normalises colour. */
  datatype ColourStep =
    | WhiteCanvas(alphaMask: bool)  // paste onto a new white RGB canvas, masked by band 3 when alphaMask
    | ConvertToRgb                  // `convert('RGB')`
    | KeepAsIs                      // already RGB

  /** Which branch of the colour normalisation an image takes. */
  function ColourStepOf(img: Image): (step: ColourStep)
    ensures step == WhiteCanvas(true) <==> img.mode == "RGBA"
    ensures step == WhiteCanvas(false) <==> img.mode == "LA" || (img.mode == "P" && img.hasTransparency)
    ensures step == KeepAsIs <==> img.mode == "RGB"
    ensures step == ConvertToRgb <==>
      img.mode !in {"RGB", "RGBA", "LA"} && !(img.mode == "P" && img.hasTransparency)
  {
    if img.mode == "RGBA" || img.mode == "LA" || (img.mode == "P" && img.hasTransparency) then
      WhiteCanvas(img.mode == "RGBA")
    else if img.mode != "RGB" then
      ConvertToRgb
    else
      KeepAsIs
  }

  /** `image.convert('RGB')`: same size; `info` is carried over. */
  function ToRgb(img: Image): (r: Image)
    ensures r.mode == "RGB" && r.width == img.width && r.height == img.height
    ensures r.hasTransparency == img.hasTransparency
  {
    img.(mode := "RGB")
  }

  /** The image after colour normalisation: always RGB and always the same
      size; a fresh white canvas carries no 'transparency' entry; an RGB image
      is returned untouched. */
  function Normalize(img: Image): (r: Image)
    ensures r.mode == "RGB" && r.width == img.width && r.height == img.height
    ensures img.mode == "RGB" ==> r == img
    ensures ColourStepOf(img).WhiteCanvas? ==> !r.hasTransparency
    ensures ColourStepOf(img) == ConvertToRgb ==> r == ToRgb(img)
  {
    match ColourStepOf(img)
    case WhiteCanvas(_) => Image("RGB", img.width, img.height, false)
    case ConvertToRgb => ToRgb(img)
    case KeepAsIs => img
  }

  /** The largest side the worker lets through unscaled. */
  const MaxSide: nat := 1500

  /** Python's `max(image.size)`. */
  function Longest(width: nat, height: nat): (m: nat)
    ensures m >= width && m >= height && (m == width || m == height)
  {
    if width >= height then width else height
  }

  /** One side after scaling by `MaxSide / longest`, truncated towards zero.
      The worker computes the ratio in floating point; this is the exact
      rational value, which can be one more than the floating-point result. */
  function ScaledSide(side: nat, longest: nat): (r: nat)
    requires longest > 0
    ensures r * longest <= side * MaxSide < (r + 1) * longest
    ensures r == 0 <==> side * MaxSide < longest
  {
    var q := side * MaxSide / longest;
    assert (q + 1) * longest == q * longest + longest;
    AtLeastOnce(q, longest);
    q
  }

  /** The size cap: an image whose longest side exceeds `MaxSide` is scaled
      down so that neither side exceeds it; any other image is left alone.
      Mode and `info` are unchanged. */
  function CapSize(img: Image): (r: Image)
    ensures r.mode == img.mode && r.hasTransparency == img.hasTransparency
    ensures Longest(img.width, img.height) <= MaxSide <==> r == img
    ensures r.width <= MaxSide && r.height <= MaxSide
    ensures r.width <= img.width && r.height <= img.height
  {
    var m := Longest(img.width, img.height);
    if m > MaxSide then
      var r := img.(width := ScaledSide(img.width, m), height := ScaledSide(img.height, m));
      ScaledSideBounds(img.width, m);
      ScaledSideBounds(img.height, m);
      assert r.width < img.width || r.height < img.height;
      r
    else
      img
  }

  /** The message PIL raises when asked to resize to a zero width or height. */
  const ResizeErrorMessage: string := "height and width must be > 0"

  /** The size cap as the worker runs it: an oversized image whose shorter
      side would scale to zero pixels makes the resize raise. */
  function CheckedCap(img: Image): (r: Result<Image>)
    ensures var m := Longest(img.width, img.height);
      r.Failure? <==> m > MaxSide && (img.width * MaxSide < m || img.height * MaxSide < m)
    ensures r.Failure? ==> r.error == ResizeErrorMessage
    ensures r.Success? ==> r.value == CapSize(img)
    ensures r.Success? && Longest(img.width, img.height) > MaxSide ==> r.value.width >= 1 && r.value.height >= 1
  {
    var m := Longest(img.width, img.height);
    var capped := CapSize(img);
    if m > MaxSide && (capped.width == 0 || capped.height == 0) then
      assert capped.width == ScaledSide(img.width, m) && capped.height == ScaledSide(img.height, m);
      Failure(ResizeErrorMessage)
    else
      assert m > MaxSide ==> capped.width == ScaledSide(img.width, m) && capped.height == ScaledSide(img.height, m);
      Success(capped)
  }

  /** Multiplying by a non-negative number keeps an order. */
  lemma {:induction false} MulMono(a: nat, b: nat, c: nat)
    requires a <= b
    ensures a * c <= b * c
  {
    if c > 0 {
      MulMono(a, b, c - 1);
      assert a * c == a * (c - 1) + a;
      assert b * c == b * (c - 1) + b;
    }
  }

  /** A positive multiple of `d` is at least `d`. */
  lemma AtLeastOnce(q: nat, d: nat)
    ensures q >= 1 ==> d <= q * d
  {
    if q >= 1 { MulMono(1, q, d); }
  }

  /** Integer division by `d` is the unique `q` with `q * d <= x < (q + 1) * d`. */
  lemma DivIsFloor(x: nat, d: nat, q: nat)
    requires d > 0 && q * d <= x < (q + 1) * d
    ensures x / d == q
  {
    var r := x / d;
    assert r * d <= x < r * d + d;
    if r < q {
      MulMono(r + 1, q, d);
    } else if r > q {
      MulMono(q + 1, r, d);
    }
  }

  /** A scaled side never exceeds `MaxSide` nor the side it came from, and the
      longest side scales to exactly `MaxSide`. */
  lemma ScaledSideBounds(side: nat, longest: nat)
    requires MaxSide < longest && side <= longest
    ensures ScaledSide(side, longest) <= MaxSide
    ensures ScaledSide(side, longest) <= side
    ensures side == longest ==> ScaledSide(side, longest) == MaxSide
  {
    var x := side * MaxSide;
    var q := x / longest;
    assert q * longest <= x;
    if q > MaxSide {
      MulMono(MaxSide + 1, q, longest);
    }
    if q > side {
      MulMono(side + 1, q, longest);
      MulMono(MaxSide, longest, side);
    }
    if side == longest {
      assert MaxSide * longest == x;
      DivIsFloor(x, longest, MaxSide);
    }
  }

  /** Scaling preserves the aspect ratio up to truncation: each side is the
      floor of its exact scaled value, and the cross products that would be
      equal for an exact ratio differ by less than the longest side. */
  lemma {:induction false} CapSizeKeepsAspect(img: Image)
    requires Longest(img.width, img.height) > MaxSide
    ensures var r, m := CapSize(img), Longest(img.width, img.height);
      r.width * m <= img.width * MaxSide < (r.width + 1) * m &&
      r.height * m <= img.height * MaxSide < (r.height + 1) * m &&
      -(m as int) < (r.width * img.height) as int - (r.height * img.width) as int < m
  {
    var r, m := CapSize(img), Longest(img.width, img.height);
    var w, h := img.width, img.height;
    var p, q := r.width, r.height;
    assert p == ScaledSide(w, m) && q == ScaledSide(h, m);
    var a: int := w * MaxSide - p * m;
    var b: int := h * MaxSide - q * m;
    assert 0 <= a < m && 0 <= b < m;
    CrossProductBound(w, h, m, p, q, a as nat, b as nat);
  }

  /** The arithmetic core of `CapSizeKeepsAspect`: with `p * m` and `q * m`
      short of `w * MaxSide` and `h * MaxSide` by less than `m`, the cross
      products `p * h` and `q * w` differ by less than `m`. */
  lemma CrossProductBound(w: nat, h: nat, m: nat, p: nat, q: nat, a: nat, b: nat)
    requires w <= m && h <= m && a < m && b < m
    requires p * m == w * MaxSide - a && q * m == h * MaxSide - b
    ensures -(m as int) < (p * h) as int - (q * w) as int < m
  {
    var d: int := (p * h) as int - (q * w) as int;
    CrossDifference(w, h, m, p, q, a, b);
    BoundedProduct(w, b, m);
    BoundedProduct(h, a, m);
    SmallProduct(d, m, b * w, a * h);
  }

  lemma CrossDifference(w: nat, h: nat, m: nat, p: nat, q: nat, a: nat, b: nat)
    requires p * m == w * MaxSide - a && q * m == h * MaxSide - b
    ensures ((p * h) as int - (q * w) as int) * m == b * w - a * h
  {
    SubMul(p * h, q * w, m);
    SwapMul(p, h, m);
    SwapMul(q, w, m);
    SubMul(w * MaxSide, a, h);
    SubMul(h * MaxSide, b, w);
    SwapMul(w, MaxSide, h);
    SwapMul(h, MaxSide, w);
    SwapMul(w, h, MaxSide);
  }

  /** The product of a number at most `m` and one below `m`. */
  lemma BoundedProduct(x: nat, y: nat, m: nat)
    requires x <= m && y < m
    ensures y * x <= m * m - m
  {
    MulMono(x, m, y);
    MulMono(y, m - 1, m);
    SubMul(m, 1, m);
  }

  /** A multiple `d * m` strictly inside `(-m * m, m * m)` has `-m < d < m`. */
  lemma SmallProduct(d: int, m: nat, x: nat, y: nat)
    requires m > 0 && d * m == x - y && x <= m * m - m && y <= m * m - m
    ensures -(m as int) < d < m
  {
    if d >= m {
      MulMono(m, d as nat, m);
    } else if d <= -(m as int) {
      MulMono(m, -d as nat, m);
      NegMul(d, m);
    }
  }

  lemma SubMul(x: int, y: int, z: int)
    ensures (x - y) * z == x * z - y * z
  {
  }

  lemma SwapMul(x: int, y: int, z: int)
    ensures (x * y) * z == (x * z) * y
  {
  }

  lemma NegMul(x: int, z: int)
    ensures (-x) * z == -(x * z)
  {
  }

  /** The two encodings the worker writes. */
  datatype Format = Jpeg | Png

  /** JPEG when the lower-cased `splitext` extension of the requested path is
      ".jpg" or ".jpeg"; PNG for every other extension, including none. */
  function OutputFormat(path: string): (f: Format)
    ensures f == Jpeg ==> var ext := SplitExt(path).1; (|ext| == 4 || |ext| == 5) && ext[0] == '.'
  {
    var ext := SplitExt(path).1;
    var lower := Lower(ext);
    if lower == ".jpg" || lower == ".jpeg" then
      assert lower[0] == '.' == LowerChar(ext[0]);
      Jpeg
    else
      Png
  }

  /** The path the worker actually writes and reports: the requested path for
      JPEG, otherwise the `splitext` root with ".png". */
  function FinalPath(path: string): (p: string)
    ensures OutputFormat(path) == Jpeg ==> p == path
    ensures OutputFormat(path) == Png ==> |p| >= 4 && p[|p| - 4..] == ".png"
  {
    if OutputFormat(path) == Jpeg then path else SplitExt(path).0 + ".png"
  }

  /** Appending '/'-free text extends the final component. */
  lemma BaseNameAppend(root: string, ext: string)
    requires '/' !in ext
    ensures BaseName(root + ext) == BaseName(root) + ext
  {
    RFindAppend(root, ext, '/');
    var k := RFind(root, '/');
    assert (root + ext)[k + 1..] == root[k + 1..] + ext;
  }

  /** A JPEG request has a real extension. */
  lemma JpegHasExtension(path: string)
    requires OutputFormat(path) == Jpeg
    ensures SplitExt(path).1 != "" && HasNonDot(BaseName(path))
  {
    var (root, ext) := SplitExt(path);
    assert Lower(ext) == ".jpg" || Lower(ext) == ".jpeg";
    SplitExtShape(path);
    BaseNameAppend(root, ext);
    var i :| 0 <= i < |BaseName(root)| && BaseName(root)[i] != '.';
    assert BaseName(path)[i] == BaseName(root)[i];
  }

  /** In the PNG case, the final component of the root has a non-dot character
      exactly when the final component of the request has one. */
  lemma PngRootNonDot(path: string)
    requires OutputFormat(path) == Png
    ensures HasNonDot(BaseName(SplitExt(path).0)) <==> HasNonDot(BaseName(path))
  {
    var (root, ext) := SplitExt(path);
    SplitExtShape(path);
    if ext != "" {
      BaseNameAppend(root, ext);
      var i :| 0 <= i < |BaseName(root)| && BaseName(root)[i] != '.';
      assert BaseName(path)[i] == BaseName(root)[i];
    } else {
      assert root == path;
    }
  }

  /** The rewrite changes nothing exactly when the request is JPEG or its
      extension is already ".png" (in that case; ".PNG" is rewritten). */
  lemma {:induction false} RewriteKeepsPathIff(path: string)
    ensures FinalPath(path) == path <==> OutputFormat(path) == Jpeg || SplitExt(path).1 == ".png"
  {
    var (root, ext) := SplitExt(path);
    if OutputFormat(path) == Png && FinalPath(path) == path {
      assert root + ".png" == root + ext;
      assert (root + ".png")[|root|..] == ".png";
      assert (root + ext)[|root|..] == ext;
    }
  }

  /** Rewriting never changes the format the path selects. */
  lemma {:induction false} FormatStable(path: string)
    ensures OutputFormat(FinalPath(path)) == OutputFormat(path)
  {
    if OutputFormat(path) == Png {
      var root := SplitExt(path).0;
      var q := root + ".png";
      assert FinalPath(path) == q;
      SplitExtOfAppended(root, ".png");
      PngIsNotJpeg();
      assert SplitExt(q).1 == ".png" || SplitExt(q).1 == "";
    }
  }

  /** Neither ".png" nor "" lower-cases to a JPEG extension. */
  lemma PngIsNotJpeg()
    ensures var e := Lower(".png"); e != ".jpg" && e != ".jpeg"
    ensures var e := Lower(""); e != ".jpg" && e != ".jpeg"
  {
    assert Lower(".png")[1] == 'p';
  }

  /** The format rule on a path with a one-dot extension after a final
      component with a non-dot character: JPEG exactly for ".jpg" or ".jpeg"
      in any case, which keeps the path; any other extension is replaced by
      ".png". */
  lemma OutputFormatOfAppended(root: string, ext: string)
    requires |ext| >= 1 && ext[0] == '.' && '.' !in ext[1..] && '/' !in ext
    requires HasNonDot(BaseName(root))
    ensures OutputFormat(root + ext) == Jpeg <==> Lower(ext) == ".jpg" || Lower(ext) == ".jpeg"
    ensures Lower(ext) == ".jpg" || Lower(ext) == ".jpeg" ==> FinalPath(root + ext) == root + ext
    ensures Lower(ext) != ".jpg" && Lower(ext) != ".jpeg" ==> FinalPath(root + ext) == root + ".png"
  {
    SplitExtOfAppended(root, ext);
  }

  /** A path whose final component has no dot is written as PNG, with ".png"
      appended. */
  lemma NoDotIsPng(p: string)
    requires '.' !in BaseName(p)
    ensures OutputFormat(p) == Png && FinalPath(p) == p + ".png"
  {
    SplitExtShape(p);
    PngIsNotJpeg();
  }

  /** Rewriting twice is rewriting once exactly when the final component of
      the request has a non-dot character; for "" or "dir/" the first rewrite
      gives a ".png" dot-file, which `splitext` treats as having no extension,
      so a second rewrite appends ".png" again. */
  lemma {:induction false} FinalPathIdempotentIff(path: string)
    ensures FinalPath(FinalPath(path)) == FinalPath(path) <==> HasNonDot(BaseName(path))
  {
    if OutputFormat(path) == Jpeg {
      JpegHasExtension(path);
    } else {
      var root := SplitExt(path).0;
      assert FinalPath(path) == root + ".png";
      PngRootNonDot(path);
      RewritePngPath(root);
    }
  }

  /** Rewriting a path that already ends in ".png" after `root`. */
  lemma RewritePngPath(root: string)
    ensures HasNonDot(BaseName(root)) ==> FinalPath(root + ".png") == root + ".png"
    ensures !HasNonDot(BaseName(root)) ==> FinalPath(root + ".png") == root + ".png" + ".png"
  {
    var q := root + ".png";
    SplitExtOfAppended(root, ".png");
    PngIsNotJpeg();
    assert OutputFormat(q) == Png;
  }

  /** The written path is the requested one or its root with ".png". */
  lemma FinalPathCases(path: string)
    ensures FinalPath(path) == path || FinalPath(path) == SplitExt(path).0 + ".png"
  {
  }

  /** The rewrite keeps the directory part of the request: everything up to
      and including its last '/'. */
  lemma {:induction false} FinalPathKeepsDirectory(path: string)
    ensures StartsWith(FinalPath(path), path[..RFind(path, '/') + 1])
  {
    var (root, ext) := SplitExt(path);
    var k := RFind(path, '/');
    SplitExtKeepsDirectory(path);
    assert path[..|root|] == root;
    var f := FinalPath(path);
    FinalPathCases(path);
    if f != path {
      assert f[..k + 1] == root[..k + 1] == path[..k + 1];
    }
  }
}
