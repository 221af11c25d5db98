/** The skin stages of ImageProcessor: choosing the face among the detections
    (findFace), the skin patch inside the resized face (getSkinColor), the six
    sensitivities the pixel classifiers are trained with (trainPixelClassifier) and the
    per-pixel labelling ladder (pixelRecognition).

    The pixel classifiers themselves are not part of this model: a trained classifier is
    a predicate on colours, and training is a given function of the sample pixels and the
    sensitivity that says whether training succeeded. */
module SkinStage {
  import opened Geometry

  /** FACE_WIDTH and FACE_HEIGHT: the size the detected face is resized to. */
  const FaceWidth: int := 150
  const FaceHeight: int := 150

  /** KERNEL_PARAM_S: the default classifier parameter S. */
  const KernelParamS: int := 100

  // ---------------------------------------------------------------------------
  // findFace: the largest detection

  /** The face findFace keeps after looking at faces[..n]: starting from the empty rectangle,
      a detection replaces the current one only when its area is strictly larger. */
  function LargestFace(faces: seq<Rect>, n: nat): (r: Rect)
    requires n <= |faces|
    ensures r.Area() >= 0
    ensures forall k :: 0 <= k < n ==> faces[k].Area() <= r.Area()
    ensures r.Area() == 0 ==> r == EmptyRect
    ensures r.Area() > 0 ==>
      exists i :: 0 <= i < n && faces[i] == r && forall k :: 0 <= k < i ==> faces[k].Area() < r.Area()
  {
    if n == 0 then EmptyRect
    else
      var r := LargestFace(faces, n - 1);
      if faces[n - 1].Area() > r.Area() then faces[n - 1] else r
  }

  /** A frame with no detection of positive area keeps the empty face rectangle, which is
      how the pipeline notices that the face was lost. */
  lemma NoFaceIsEmpty(faces: seq<Rect>)
    requires forall k :: 0 <= k < |faces| ==> faces[k].Area() <= 0
    ensures LargestFace(faces, |faces|) == EmptyRect
  {
  }

  // ---------------------------------------------------------------------------
  // getSkinColor: the skin patch

  /** cv::Rect built from two opposite corners. */
  function CornersRect(p: Point, q: Point): (r: Rect)
    ensures r.width >= 0 && r.height >= 0
    ensures r.Contains(p) || r.width == 0 || r.height == 0 || (p.x > q.x || p.y > q.y)
  {
    Rect(if p.x < q.x then p.x else q.x, if p.y < q.y then p.y else q.y,
         Abs(q.x - p.x), Abs(q.y - p.y))
  }

  /** The patch of the 150x150 face that holds skin: from (0.3, 0.5) to (0.7, 0.64) of
      its width and height. The products with the double factors are exact here, so they
      are written as integer fractions. */
  const SkinRect: Rect := CornersRect(Point(FaceWidth * 3 / 10, FaceHeight * 5 / 10),
                                      Point(FaceWidth * 7 / 10, FaceHeight * 64 / 100))

  /** The skin patch is the 60x21 rectangle at (45, 75), and lies wholly inside the face. */
  lemma SkinRectInsideFace()
    ensures SkinRect == Rect(45, 75, 60, 21) && SkinRect.Area() == 1260
    ensures forall p :: SkinRect.Contains(p) ==> Rect(0, 0, FaceWidth, FaceHeight).Contains(p)
  {
  }

  // ---------------------------------------------------------------------------
  // trainPixelClassifier: the sensitivity schedule

  /** C++ integer division, which truncates toward zero. */
  function TruncDiv(a: int, b: int): (q: int)
    requires b > 0
    ensures a >= 0 ==> 0 <= a - b * q < b
    ensures a < 0 ==> 0 <= b * q - a < b
  {
    if a >= 0 then a / b else -((-a) / b)
  }

  /** The sensitivity step p = (paramS - 50) / 6. */
  function Step(paramS: int): int
  {
    TruncDiv(paramS - 50, 6)
  }

  /** The six sensitivities, for the classifiers of levels 50, 60, ..., 100 in that order:
      50 + p, 50 + 2p, ..., 50 + 6p. */
  function Sensitivities(paramS: int): (s: seq<int>)
    ensures |s| == 6
    ensures forall k :: 0 <= k < 6 ==> s[k] == 50 + (k + 1) * Step(paramS)
  {
    var p := Step(paramS);
    [50 + p, 50 + 2 * p, 50 + 3 * p, 50 + 4 * p, 50 + 5 * p, 50 + 6 * p]
  }

  /** With the default S = 100 the step is 8. */
  lemma DefaultSensitivities()
    ensures Sensitivities(KernelParamS) == [58, 66, 74, 82, 90, 98]
  {
  }

  /** The schedule climbs in equal steps from 50 towards S: the last sensitivity lies between
      50 and S and within 6 of S, on whichever side of 50 S lies (the division truncates). */
  lemma SensitivitiesTowardS(paramS: int)
    ensures var s := Sensitivities(paramS);
      (paramS >= 50 ==> 50 <= s[0] && (forall k :: 0 <= k < 5 ==> s[k] <= s[k + 1]) && s[5] <= paramS < s[5] + 6) &&
      (paramS < 50 ==> s[0] <= 50 && (forall k :: 0 <= k < 5 ==> s[k + 1] <= s[k]) && s[5] - 6 < paramS <= s[5])
  {
    var s := Sensitivities(paramS);
    var p := Step(paramS);
    assert s[5] == 50 + 6 * p;
  }

  /** The training pixels: the skin patch in row-major order, each sample turned from BGR
      into RGB. */
  function PatchPixels(skinColor: array2<Bgr>, rows: nat): (px: seq<Rgb>)
    reads skinColor
    requires rows <= skinColor.Length0
    ensures |px| == rows * skinColor.Length1
  {
    if rows == 0 then []
    else PatchPixels(skinColor, rows - 1) + RowPixels(skinColor, rows - 1, skinColor.Length1)
  }

  function RowPixels(skinColor: array2<Bgr>, i: nat, cols: nat): (px: seq<Rgb>)
    reads skinColor
    requires i < skinColor.Length0 && cols <= skinColor.Length1
    ensures |px| == cols
  {
    if cols == 0 then [] else RowPixels(skinColor, i, cols - 1) + [ToRgb(skinColor[i, cols - 1])]
  }

  /** Training pixel i * cols + j is the sample at row i, column j, channels swapped. */
  lemma {:induction false} PatchPixelsAt(skinColor: array2<Bgr>, rows: nat, i: nat, j: nat)
    requires rows <= skinColor.Length0 && i < rows && j < skinColor.Length1
    ensures i * skinColor.Length1 + j < rows * skinColor.Length1
    ensures PatchPixels(skinColor, rows)[i * skinColor.Length1 + j] == ToRgb(skinColor[i, j])
  {
    var cols := skinColor.Length1;
    assert i * cols + j < (i + 1) * cols <= rows * cols by {
      assert (i + 1) * cols == i * cols + cols;
      MulMono(i + 1, rows, cols);
    }
    if i < rows - 1 {
      PatchPixelsAt(skinColor, rows - 1, i, j);
    } else {
      assert |PatchPixels(skinColor, rows - 1)| == i * cols;
      RowPixelsAt(skinColor, i, cols, j);
    }
  }

  lemma {:induction false} RowPixelsAt(skinColor: array2<Bgr>, i: nat, cols: nat, j: nat)
    requires i < skinColor.Length0 && j < cols <= skinColor.Length1
    ensures RowPixels(skinColor, i, cols)[j] == ToRgb(skinColor[i, j])
  {
    if j < cols - 1 {
      RowPixelsAt(skinColor, i, cols - 1, j);
    }
  }

  lemma MulMono(a: nat, b: nat, c: nat)
    requires a <= b
    ensures a * c <= b * c
  {
  }

  /** Collects the skin patch's samples row by row as RGB colours. */
  method CollectPixels(skinColor: array2<Bgr>) returns (pixels: seq<Rgb>)
    ensures pixels == PatchPixels(skinColor, skinColor.Length0)
  {
    pixels := [];
    for i := 0 to skinColor.Length0
      invariant pixels == PatchPixels(skinColor, i)
    {
      ghost var before := pixels;
      for j := 0 to skinColor.Length1
        invariant pixels == before + RowPixels(skinColor, i, j)
      {
        var bgrPixel := skinColor[i, j];
        pixels := pixels + [Rgb(bgrPixel.r, bgrPixel.g, bgrPixel.b)];
      }
    }
  }

  /** Training succeeds exactly when all six classifiers train: every one is trained, and
      the results are and-ed together. */
  method TrainPixelClassifier(skinColor: array2<Bgr>, paramS: int, train: (seq<Rgb>, int) -> bool)
    returns (trained: bool)
    ensures trained <==> forall k :: 0 <= k < 6 ==>
      train(PatchPixels(skinColor, skinColor.Length0), Sensitivities(paramS)[k])
  {
    var pixels := CollectPixels(skinColor);
    var p := TruncDiv(paramS - 50, 6);
    trained := train(pixels, 50 + p);
    trained := train(pixels, 50 + 2 * p) && trained;
    trained := train(pixels, 50 + 3 * p) && trained;
    trained := train(pixels, 50 + 4 * p) && trained;
    trained := train(pixels, 50 + 5 * p) && trained;
    trained := train(pixels, 50 + 6 * p) && trained;
    var s := Sensitivities(paramS);
    assert s == [50 + p, 50 + 2 * p, 50 + 3 * p, 50 + 4 * p, 50 + 5 * p, 50 + 6 * p];
    assert trained <==> train(pixels, s[0]) && train(pixels, s[1]) && train(pixels, s[2]) &&
                        train(pixels, s[3]) && train(pixels, s[4]) && train(pixels, s[5]);
    if trained {
      forall k | 0 <= k < 6
        ensures train(pixels, s[k])
      {
        assert k == 0 || k == 1 || k == 2 || k == 3 || k == 4 || k == 5;
      }
    }
  }

  // ---------------------------------------------------------------------------
  // pixelRecognition: the labelling ladder

  /** The six trained classifiers, by level. */
  datatype Classifiers = Classifiers(
    c50: Rgb -> bool, c60: Rgb -> bool, c70: Rgb -> bool,
    c80: Rgb -> bool, c90: Rgb -> bool, c100: Rgb -> bool)

  /** How far down the chain 100, 90, 80, 70, 60, 50 the classifiers accept a colour:
      each level is asked only when the previous one accepted. */
  function Depth(cls: Classifiers, px: Rgb): (d: nat)
    ensures d <= 6
    ensures d == 0 <==> !cls.c100(px)
  {
    if !cls.c100(px) then 0
    else if !cls.c90(px) then 1
    else if !cls.c80(px) then 2
    else if !cls.c70(px) then 3
    else if !cls.c60(px) then 4
    else if !cls.c50(px) then 5
    else 6
  }

  /** The grey level written for a depth: 0 when the first classifier rejects, otherwise
      100, 130, ..., 250. */
  function LabelOf(d: nat): (b: Byte)
    requires d <= 6
    ensures d == 0 <==> b == 0
  {
    if d == 0 then 0 else 70 + 30 * d
  }

  /** The label of the sample at row i, column j: pixels inside the face rectangle are
      skipped and keep 0. */
  function SkinLabel(frame: array2<Bgr>, faceRect: Rect, cls: Classifiers, i: nat, j: nat): (level: Byte)
    reads frame
    requires i < frame.Length0 && j < frame.Length1
    ensures level in {0, 100, 130, 160, 190, 220, 250}
    ensures faceRect.Contains(Point(j, i)) ==> level == 0
  {
    if faceRect.Contains(Point(j, i)) then 0 else LabelOf(Depth(cls, ToRgb(frame[i, j])))
  }

  /** The binary mask value: 255 where the label is non-zero. */
  function SkinBin(frame: array2<Bgr>, faceRect: Rect, cls: Classifiers, i: nat, j: nat): (bin: Byte)
    reads frame
    requires i < frame.Length0 && j < frame.Length1
    ensures bin == 0 || bin == 255
    ensures bin == 255 <==> !faceRect.Contains(Point(j, i)) && cls.c100(ToRgb(frame[i, j]))
  {
    if SkinLabel(frame, faceRect, cls, i, j) == 0 then 0 else 255
  }

  /** The colourised frame: labelled pixels become pure green at their label's level, the
      rest keep the frame's colour. */
  function Colorized(frame: array2<Bgr>, faceRect: Rect, cls: Classifiers, i: nat, j: nat): (color: Bgr)
    reads frame
    requires i < frame.Length0 && j < frame.Length1
    ensures faceRect.Contains(Point(j, i)) ==> color == frame[i, j]
    ensures color != frame[i, j] ==> color.b == 0 && color.r == 0 && color.g >= 100
  {
    var level := SkinLabel(frame, faceRect, cls, i, j);
    if level == 0 then frame[i, j] else Bgr(0, level, 0)
  }

  /** The labels are exactly the ladder 0, 100, 130, 160, 190, 220, 250; the mask is 255
      exactly where the level-100 classifier accepts a pixel outside the face. */
  lemma LabelLadder(frame: array2<Bgr>, faceRect: Rect, cls: Classifiers, i: nat, j: nat)
    requires i < frame.Length0 && j < frame.Length1
    ensures SkinLabel(frame, faceRect, cls, i, j) in {0, 100, 130, 160, 190, 220, 250}
    ensures SkinBin(frame, faceRect, cls, i, j) == 255 <==>
      !faceRect.Contains(Point(j, i)) && cls.c100(ToRgb(frame[i, j]))
    ensures SkinBin(frame, faceRect, cls, i, j) == 0 <==> SkinLabel(frame, faceRect, cls, i, j) == 0
  {
  }

  /** When the classifiers are nested (a colour a later-checked level accepts, every
      earlier-checked level accepts too), the depth is simply the number of classifiers
      that accept. */
  lemma NestedDepthCounts(cls: Classifiers, px: Rgb)
    requires cls.c90(px) ==> cls.c100(px)
    requires cls.c80(px) ==> cls.c90(px)
    requires cls.c70(px) ==> cls.c80(px)
    requires cls.c60(px) ==> cls.c70(px)
    requires cls.c50(px) ==> cls.c60(px)
    ensures Depth(cls, px) ==
      (if cls.c50(px) then 1 else 0) + (if cls.c60(px) then 1 else 0) + (if cls.c70(px) then 1 else 0) +
      (if cls.c80(px) then 1 else 0) + (if cls.c90(px) then 1 else 0) + (if cls.c100(px) then 1 else 0)
  {
  }

  /** Labels every pixel of the frame outside the face rectangle, writing the grey label,
      the binary mask and the colourised frame, each a fresh matrix of the frame's size. */
  method PixelRecognition(frame: array2<Bgr>, faceRect: Rect, cls: Classifiers)
    returns (classifiedSkin: array2<Byte>, classifiedSkinBin: array2<Byte>, colorizedFrame: array2<Bgr>)
    ensures fresh(classifiedSkin) && fresh(classifiedSkinBin) && fresh(colorizedFrame)
    ensures classifiedSkin.Length0 == classifiedSkinBin.Length0 == colorizedFrame.Length0 == frame.Length0
    ensures classifiedSkin.Length1 == classifiedSkinBin.Length1 == colorizedFrame.Length1 == frame.Length1
    ensures forall i, j :: 0 <= i < frame.Length0 && 0 <= j < frame.Length1 ==>
      classifiedSkin[i, j] == SkinLabel(frame, faceRect, cls, i, j)
    ensures forall i, j :: 0 <= i < frame.Length0 && 0 <= j < frame.Length1 ==>
      classifiedSkinBin[i, j] == SkinBin(frame, faceRect, cls, i, j)
    ensures forall i, j :: 0 <= i < frame.Length0 && 0 <= j < frame.Length1 ==>
      colorizedFrame[i, j] == Colorized(frame, faceRect, cls, i, j)
  {
    var rows, cols := frame.Length0, frame.Length1;
    colorizedFrame := new Bgr[rows, cols]((i: nat, j: nat) reads frame =>
      if i < frame.Length0 && j < frame.Length1 then frame[i, j] else Bgr(0, 0, 0));
    classifiedSkin := new Byte[rows, cols]((i, j) => 0);
    classifiedSkinBin := new Byte[rows, cols]((i, j) => 0);
    for i := 0 to rows
      invariant forall r, c :: 0 <= r < rows && 0 <= c < cols ==>
        classifiedSkin[r, c] == (if r < i then SkinLabel(frame, faceRect, cls, r, c) else 0) &&
        classifiedSkinBin[r, c] == (if r < i then SkinBin(frame, faceRect, cls, r, c) else 0) &&
        colorizedFrame[r, c] == (if r < i then Colorized(frame, faceRect, cls, r, c) else frame[r, c])
    {
      RecognizeRow(frame, faceRect, cls, i, classifiedSkin, classifiedSkinBin, colorizedFrame);
    }
  }

  /** One row of pixelRecognition: every sample of row i outside the face gets its label,
      mask and colour; the other rows are left alone. */
  method RecognizeRow(frame: array2<Bgr>, faceRect: Rect, cls: Classifiers, i: nat,
                      classifiedSkin: array2<Byte>, classifiedSkinBin: array2<Byte>, colorizedFrame: array2<Bgr>)
    requires i < frame.Length0 && colorizedFrame != frame && classifiedSkin != classifiedSkinBin
    requires classifiedSkin.Length0 == classifiedSkinBin.Length0 == colorizedFrame.Length0 == frame.Length0
    requires classifiedSkin.Length1 == classifiedSkinBin.Length1 == colorizedFrame.Length1 == frame.Length1
    requires forall r, c :: 0 <= r < frame.Length0 && 0 <= c < frame.Length1 ==>
      classifiedSkin[r, c] == (if r < i then SkinLabel(frame, faceRect, cls, r, c) else 0) &&
      classifiedSkinBin[r, c] == (if r < i then SkinBin(frame, faceRect, cls, r, c) else 0) &&
      colorizedFrame[r, c] == (if r < i then Colorized(frame, faceRect, cls, r, c) else frame[r, c])
    modifies classifiedSkin, classifiedSkinBin, colorizedFrame
    ensures forall r, c :: 0 <= r < frame.Length0 && 0 <= c < frame.Length1 ==>
      classifiedSkin[r, c] == (if r <= i then SkinLabel(frame, faceRect, cls, r, c) else 0) &&
      classifiedSkinBin[r, c] == (if r <= i then SkinBin(frame, faceRect, cls, r, c) else 0) &&
      colorizedFrame[r, c] == (if r <= i then Colorized(frame, faceRect, cls, r, c) else frame[r, c])
  {
    for j := 0 to frame.Length1
      invariant forall r, c :: 0 <= r < frame.Length0 && 0 <= c < frame.Length1 ==>
        var done := r < i || (r == i && c < j);
        classifiedSkin[r, c] == (if done then SkinLabel(frame, faceRect, cls, r, c) else 0) &&
        classifiedSkinBin[r, c] == (if done then SkinBin(frame, faceRect, cls, r, c) else 0) &&
        colorizedFrame[r, c] == (if done then Colorized(frame, faceRect, cls, r, c) else frame[r, c])
    {
      if faceRect.Contains(Point(j, i)) {
        continue;
      }
      var level, bin, color := ClassifyPixel(frame[i, j], cls);
      if bin == 255 {
        classifiedSkin[i, j] := level;
        classifiedSkinBin[i, j] := bin;
        colorizedFrame[i, j] := color;
      }
    }
  }

  /** The nested classifier ladder for one sample: each level that accepts overwrites the
      label and the colour with its own, and the first level sets the mask. */
  method ClassifyPixel(bgrPixel: Bgr, cls: Classifiers) returns (level: Byte, bin: Byte, color: Bgr)
    ensures level == LabelOf(Depth(cls, ToRgb(bgrPixel)))
    ensures bin == (if level == 0 then 0 else 255)
    ensures color == (if level == 0 then bgrPixel else Bgr(0, level, 0))
  {
    level, bin, color := 0, 0, bgrPixel;
    var px := Rgb(bgrPixel.r, bgrPixel.g, bgrPixel.b);
    if cls.c100(px) {
      level, bin, color := 100, 255, Bgr(0, 100, 0);
      if cls.c90(px) {
        level, color := 130, Bgr(0, 130, 0);
        if cls.c80(px) {
          level, color := 160, Bgr(0, 160, 0);
          if cls.c70(px) {
            level, color := 190, Bgr(0, 190, 0);
            if cls.c60(px) {
              level, color := 220, Bgr(0, 220, 0);
              if cls.c50(px) {
                level, color := 250, Bgr(0, 250, 0);
              }
            }
          }
        }
      }
    }
  }
}
