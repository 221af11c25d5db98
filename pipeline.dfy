// The stage machine of ImageProcessor (processImage): one step maps the current stage,
// the session flags and what the stage's own work reports to the next stage and the new
// flags. The image work of each stage is not repeated here: the camera, the face
// detector, classifier training and the hand comparison report their results as an
// Outcome; the largest-face choice and the merge passes are run for real.

module Pipeline {
  import opened Geometry
  import opened CameraDevice
  import SkinStage
  import RunFill

  /** The stages, in the order of their declaration; Stop is the first. */
  datatype State =
    | Stop
    | CloseCam
    | OpenCam
    | GetFrame
    | FindFace
    | GetSkinColor
    | TrainPixelClassifier
    | PixelRecognition
    | Canny
    | MorphologyDilation
    | MergePixelsAndCanny
    | MorphologyErode
    | MorphologyOpening
    | HandRecognition

  /** The flags processImage reads and writes, with the camera's open flag and failure
      counter. */
  datatype Session = Session(
    stop: bool,
    startState: State,
    pixelClassifierTrained: bool,
    isPhotoMode: bool,
    mergeTimes: int,
    cascadeLoaded: bool,
    faceRect: Rect,
    camOpen: bool,
    readFrameFails: int)

  /** What the work of a stage reports: whether the device opens, whether a frame is read
      (and which), whether the face cascade loads, the detections, whether training
      succeeds and whether a hand is recognised. */
  datatype Outcome = Outcome(
    deviceOpens: bool,
    frameRead: bool,
    image: array2<Bgr>,
    cascadeLoads: bool,
    faces: seq<Rect>,
    trainingSucceeds: bool,
    handRecognized: bool)

  /** One step of processImage. Only a successful hand recognition whose start stage is
      MergePixelsAndCanny leads there, a set stop flag is never cleared, and the start stage
      and the photo-mode flag are never changed. */
  function Next(state: State, s: Session, o: Outcome): (r: (State, Session))
    ensures r.0 == MergePixelsAndCanny ==> state == HandRecognition && s.startState == MergePixelsAndCanny
    ensures s.stop ==> r.1.stop
    ensures r.1.startState == s.startState && r.1.isPhotoMode == s.isPhotoMode
    ensures state == Stop ==> r == (Stop, s)
  {
    match state
    case CloseCam => (Stop, s.(stop := true, camOpen := false))
    case OpenCam =>
      if !o.deviceOpens then (Stop, s.(stop := true, camOpen := false))
      else (GetFrame, s.(camOpen := true))
    case GetFrame =>
      if !s.camOpen then (Stop, s.(stop := true))
      else
        var (fails, ok) := ReadStep(s.readFrameFails, o.frameRead);
        var s' := s.(readFrameFails := fails);
        if !ok then (CloseCam, s')
        else if !s.stop && s.isPhotoMode then (GetFrame, s')
        else if !s.stop then (FindFace, s')
        else (Stop, s')
    case FindFace =>
      if s.stop then (Stop, s)
      else if !s.cascadeLoaded && !o.cascadeLoads then (CloseCam, s)
      else
        var face := SkinStage.LargestFace(o.faces, |o.faces|);
        var s' := s.(cascadeLoaded := true, faceRect := face);
        if face.Area() == 0 then (GetFrame, s'.(pixelClassifierTrained := false))
        else (GetSkinColor, s')
    case GetSkinColor =>
      if s.stop then (Stop, s)
      else if !s.pixelClassifierTrained then (TrainPixelClassifier, s)
      else (PixelRecognition, s)
    case TrainPixelClassifier =>
      if s.stop then (Stop, s)
      else if !o.trainingSucceeds then (CloseCam, s.(pixelClassifierTrained := false))
      else (PixelRecognition, s.(pixelClassifierTrained := true))
    case PixelRecognition => if s.stop then (Stop, s) else (Canny, s)
    case Canny => if s.stop then (Stop, s) else (MorphologyDilation, s.(mergeTimes := 0))
    case MorphologyDilation => if s.stop then (Stop, s) else (MorphologyErode, s)
    case MergePixelsAndCanny => if s.stop then (Stop, s) else (MorphologyErode, s.(mergeTimes := 0))
    case MorphologyErode => if s.stop then (Stop, s) else (MorphologyOpening, s)
    case MorphologyOpening => if s.stop then (Stop, s) else (HandRecognition, s)
    case HandRecognition =>
      if s.stop || !o.handRecognized then (Stop, s) else (s.startState, s)
    case Stop => (Stop, s)
  }

  /** The queued self-dispatch: stages are processed, one outcome each, until a step
      yields Stop or the outcomes run out. Returns the last stage, the flags and the
      number of steps. */
  function Trace(state: State, s: Session, os: seq<Outcome>): (r: (State, Session, nat))
    ensures r.2 <= |os|
    ensures r.2 < |os| ==> r.0 == Stop
    decreases |os|
  {
    if state == Stop || os == [] then (state, s, 0)
    else
      var (n, s') := Next(state, s, os[0]);
      var (f, s'', k) := Trace(n, s', os[1..]);
      (f, s'', k + 1)
  }

  /** The stages processed along a dispatch. */
  function Visits(state: State, s: Session, os: seq<Outcome>): (v: seq<State>)
    ensures |v| == Trace(state, s, os).2
    decreases |os|
  {
    if state == Stop || os == [] then []
    else
      var (n, s') := Next(state, s, os[0]);
      [state] + Visits(n, s', os[1..])
  }

  /** What is left of a dispatch after `done` steps completes the dispatch `goal`. */
  ghost predicate TraceRest(state: State, s: Session, rest: seq<Outcome>, done: nat, goal: (State, Session, nat))
  {
    var r := Trace(state, s, rest);
    r.0 == goal.0 && r.1 == goal.1 && done + r.2 == goal.2
  }

  /** The stages still to be visited complete the stages of the dispatch `all`. */
  ghost predicate VisitsRest(state: State, s: Session, rest: seq<Outcome>, visited: seq<State>, all: seq<State>)
  {
    visited + Visits(state, s, rest) == all
  }

  /** One step of a dispatch keeps both records: the first stage is processed, giving
      `n` and `s'`, and the rest is dispatched from there. */
  lemma DispatchStep(state: State, s: Session, os: seq<Outcome>, n: State, s': Session,
                     done: nat, goal: (State, Session, nat), visited: seq<State>, all: seq<State>)
    requires state != Stop && os != [] && (n, s') == Next(state, s, os[0])
    requires TraceRest(state, s, os, done, goal) && VisitsRest(state, s, os, visited, all)
    ensures TraceRest(n, s', os[1..], done + 1, goal) && VisitsRest(n, s', os[1..], visited + [state], all)
  {
    assert visited + [state] + Visits(n, s', os[1..]) == visited + Visits(state, s, os);
  }

  /** A dispatch that has reached Stop or run out of outcomes is complete. */
  lemma DispatchDone(state: State, s: Session, os: seq<Outcome>,
                     done: nat, goal: (State, Session, nat), visited: seq<State>, all: seq<State>)
    requires state == Stop || os == []
    requires TraceRest(state, s, os, done, goal) && VisitsRest(state, s, os, visited, all)
    ensures goal == (state, s, done) && visited == all
  {
  }

  /** The image stages from FindFace to HandRecognition. */
  predicate ImageStage(state: State)
  {
    state in {FindFace, GetSkinColor, TrainPixelClassifier, PixelRecognition, Canny,
              MorphologyDilation, MergePixelsAndCanny, MorphologyErode, MorphologyOpening, HandRecognition}
  }

  /** Every image stage entered with the stop flag set goes straight to Stop and changes
      no flag. */
  lemma StopHaltsImageStages(state: State, s: Session, o: Outcome)
    requires ImageStage(state) && s.stop
    ensures Next(state, s, o) == (Stop, s)
  {
  }

  /** No step ever clears the stop flag, and only CloseCam, a failed OpenCam and GetFrame
      on a closed camera set it. */
  lemma StopIsSticky(state: State, s: Session, o: Outcome)
    ensures s.stop ==> Next(state, s, o).1.stop
    ensures !s.stop && Next(state, s, o).1.stop ==>
      state == CloseCam || (state == OpenCam && !o.deviceOpens) || (state == GetFrame && !s.camOpen)
  {
  }

  /** Once the stop flag is set, any dispatch reaches Stop within three steps (the longest
      path being OpenCam, GetFrame, CloseCam). */
  lemma {:induction false} StopDrains(state: State, s: Session, os: seq<Outcome>)
    requires s.stop && |os| >= 3
    ensures Trace(state, s, os).0 == Stop && Trace(state, s, os).2 <= 3
  {
    if state != Stop {
      var (n1, s1) := Next(state, s, os[0]);
      StopIsSticky(state, s, os[0]);
      assert Trace(state, s, os) == (Trace(n1, s1, os[1..]).0, Trace(n1, s1, os[1..]).1, Trace(n1, s1, os[1..]).2 + 1);
      if n1 != Stop {
        var os1 := os[1..];
        var (n2, s2) := Next(n1, s1, os1[0]);
        StopIsSticky(n1, s1, os1[0]);
        assert Trace(n1, s1, os1) == (Trace(n2, s2, os1[1..]).0, Trace(n2, s2, os1[1..]).1, Trace(n2, s2, os1[1..]).2 + 1);
        if n2 != Stop {
          var os2 := os1[1..];
          var (n3, s3) := Next(n2, s2, os2[0]);
          assert n3 == Stop;
          assert Trace(n3, s3, os2[1..]) == (Stop, s3, 0);
        }
      }
    }
  }

  /** A frame without a face of positive area clears the trained flag and goes back to
      GetFrame; a face sends the pipeline on to GetSkinColor with the flag unchanged. */
  lemma LostFaceClearsTraining(s: Session, o: Outcome)
    requires !s.stop && (s.cascadeLoaded || o.cascadeLoads)
    ensures var (n, s') := Next(FindFace, s, o);
      (forall k :: 0 <= k < |o.faces| ==> o.faces[k].Area() <= 0) ==>
        n == GetFrame && !s'.pixelClassifierTrained && s'.faceRect == EmptyRect
    ensures var (n, s') := Next(FindFace, s, o);
      (exists k :: 0 <= k < |o.faces| && o.faces[k].Area() > 0) ==>
        n == GetSkinColor && s'.pixelClassifierTrained == s.pixelClassifierTrained && s'.faceRect.Area() > 0
  {
    if forall k :: 0 <= k < |o.faces| ==> o.faces[k].Area() <= 0 {
      SkinStage.NoFaceIsEmpty(o.faces);
    }
  }

  /** Without a cascade to detect with, FindFace closes the camera. */
  lemma NoCascadeCloses(s: Session, o: Outcome)
    requires !s.stop && !s.cascadeLoaded && !o.cascadeLoads
    ensures Next(FindFace, s, o) == (CloseCam, s)
  {
  }

  /** GetSkinColor goes to training exactly when the classifier is untrained, and to
      pixel recognition otherwise. */
  lemma SkinColorRoutes(s: Session, o: Outcome)
    requires !s.stop
    ensures Next(GetSkinColor, s, o).0 == TrainPixelClassifier <==> !s.pixelClassifierTrained
    ensures Next(GetSkinColor, s, o).0 == PixelRecognition <==> s.pixelClassifierTrained
  {
  }

  /** A failed training closes the camera; a successful one marks the classifier trained. */
  lemma TrainingOutcome(s: Session, o: Outcome)
    requires !s.stop
    ensures var (n, s') := Next(TrainPixelClassifier, s, o);
      (n == CloseCam <==> !o.trainingSucceeds) && (s'.pixelClassifierTrained <==> o.trainingSucceeds)
  {
  }

  /** GetFrame: a closed camera stops; the read failure that reaches the threshold closes
      the camera; any other read (even a failed one) moves on as if a frame was read. */
  lemma ReadFailureCloses(s: Session, o: Outcome)
    requires s.camOpen
    ensures var (n, s') := Next(GetFrame, s, o);
      (n == CloseCam <==> !o.frameRead && s.readFrameFails + 1 == CriticalReadFrameFails) &&
      (n != CloseCam ==> n == (if s.stop then Stop else if s.isPhotoMode then GetFrame else FindFace)) &&
      s'.readFrameFails == (if o.frameRead then 0 else s.readFrameFails + 1)
  {
  }

  /** HandRecognition returns to the start stage after a recognised hand and stops
      otherwise. */
  lemma HandRecognitionLoops(s: Session, o: Outcome)
    ensures Next(HandRecognition, s, o).0 ==
      (if !s.stop && o.handRecognized then s.startState else Stop)
  {
  }

  /** Stop does nothing, and a dispatch processes nothing once a step yields Stop. */
  lemma StopEndsDispatch(s: Session, os: seq<Outcome>)
    ensures Trace(Stop, s, os) == (Stop, s, 0) && Visits(Stop, s, os) == []
  {
  }

  /** The pipeline never passes through MergePixelsAndCanny unless it is made the start
      stage: Canny leads to MorphologyDilation and that to MorphologyErode. */
  lemma {:induction false} MergeNeverDispatched(state: State, s: Session, os: seq<Outcome>)
    requires state != MergePixelsAndCanny && s.startState != MergePixelsAndCanny
    ensures MergePixelsAndCanny !in Visits(state, s, os)
    decreases |os|
  {
    if state != Stop && os != [] {
      var (n, s') := Next(state, s, os[0]);
      assert n != MergePixelsAndCanny && s'.startState == s.startState;
      MergeNeverDispatched(n, s', os[1..]);
    }
  }

  class ImageProcessor {
    var stop: bool
    var startState: State
    var pixelClassifierTrained: bool
    var isPhotoMode: bool
    var photoProcessingMode: bool
    var paramS: int
    var mergeTimes: int
    var cascadeLoaded: bool
    var faceRect: Rect
    /** The capture device; its frame is the frame being processed. */
    var cam: Camera
    var classifiedSkinBin: array2<Byte>
    var dilated: array2<Byte>
    var pixelsAndCanny: array2<Byte>

    /** The three masks the merge stage works on have one shape, and the output is a
        matrix of its own. */
    predicate Valid()
      reads this
    {
      RunFill.SameShape(classifiedSkinBin, dilated) && RunFill.SameShape(dilated, pixelsAndCanny) &&
      pixelsAndCanny != classifiedSkinBin && pixelsAndCanny != dilated
    }

    /** The flags as a value. */
    function Snapshot(): Session
      reads this, cam
    {
      Session(stop, startState, pixelClassifierTrained, isPhotoMode, mergeTimes, cascadeLoaded, faceRect,
              cam.isOpen, cam.readFrameFails)
    }

    /** The constructor's defaults; stop and startState are left unset. */
    constructor ()
      ensures Valid()
      ensures !pixelClassifierTrained && mergeTimes == 0 && !isPhotoMode && !photoProcessingMode
      ensures paramS == SkinStage.KernelParamS && faceRect == EmptyRect && !cascadeLoaded
      ensures fresh(cam) && !cam.isOpen && cam.readFrameFails == 0
      ensures fresh(classifiedSkinBin) && fresh(dilated) && fresh(pixelsAndCanny)
    {
      pixelClassifierTrained := false;
      mergeTimes := 0;
      isPhotoMode := false;
      photoProcessingMode := false;
      paramS := SkinStage.KernelParamS;
      cascadeLoaded := false;
      faceRect := EmptyRect;
      cam := new Camera();
      classifiedSkinBin := new Byte[0, 0];
      dilated := new Byte[0, 0];
      pixelsAndCanny := new Byte[0, 0];
    }

    method SetStop(b: bool)
      modifies this
      ensures Snapshot() == old(Snapshot()).(stop := b)
      ensures cam == old(cam) && paramS == old(paramS) && photoProcessingMode == old(photoProcessingMode)
      ensures Valid() == old(Valid())
      ensures classifiedSkinBin == old(classifiedSkinBin) && dilated == old(dilated) && pixelsAndCanny == old(pixelsAndCanny)
    {
      stop := b;
    }

    method Stopped() returns (b: bool)
      ensures b == stop
    {
      b := stop;
    }

    method SetStartState(state: State)
      modifies this
      ensures Snapshot() == old(Snapshot()).(startState := state)
      ensures cam == old(cam) && paramS == old(paramS) && photoProcessingMode == old(photoProcessingMode)
      ensures Valid() == old(Valid())
      ensures classifiedSkinBin == old(classifiedSkinBin) && dilated == old(dilated) && pixelsAndCanny == old(pixelsAndCanny)
    {
      startState := state;
    }

    method GetStartState() returns (state: State)
      ensures state == startState
    {
      state := startState;
    }

    /** Stores S and always marks the classifier untrained. */
    method SetKernelParamS(s: int)
      modifies this
      ensures paramS == s
      ensures Snapshot() == old(Snapshot()).(pixelClassifierTrained := false)
      ensures cam == old(cam) && photoProcessingMode == old(photoProcessingMode)
      ensures Valid() == old(Valid())
      ensures classifiedSkinBin == old(classifiedSkinBin) && dilated == old(dilated) && pixelsAndCanny == old(pixelsAndCanny)
    {
      paramS := s;
      pixelClassifierTrained := false;
    }

    /** setPixelClassifierTrained; called with false (its default) it is the retrain
        action. */
    method SetPixelClassifierTrained(trained: bool := false)
      modifies this
      ensures Snapshot() == old(Snapshot()).(pixelClassifierTrained := trained)
      ensures cam == old(cam) && paramS == old(paramS) && photoProcessingMode == old(photoProcessingMode)
      ensures Valid() == old(Valid())
      ensures classifiedSkinBin == old(classifiedSkinBin) && dilated == old(dilated) && pixelsAndCanny == old(pixelsAndCanny)
    {
      pixelClassifierTrained := trained;
    }

    /** Replaces the frame and forgets the face. */
    method SetFrame(f: array2<Bgr>)
      modifies this, cam
      ensures cam == old(cam) && cam.frame == f
      ensures Snapshot() == old(Snapshot()).(faceRect := EmptyRect)
      ensures paramS == old(paramS) && photoProcessingMode == old(photoProcessingMode)
      ensures Valid() == old(Valid())
      ensures classifiedSkinBin == old(classifiedSkinBin) && dilated == old(dilated) && pixelsAndCanny == old(pixelsAndCanny)
    {
      cam.frame := f;
      faceRect := EmptyRect;
    }

    method SetPhotoMode(mode: bool)
      modifies this
      ensures Snapshot() == old(Snapshot()).(isPhotoMode := mode)
      ensures cam == old(cam) && paramS == old(paramS) && photoProcessingMode == old(photoProcessingMode)
      ensures Valid() == old(Valid())
      ensures classifiedSkinBin == old(classifiedSkinBin) && dilated == old(dilated) && pixelsAndCanny == old(pixelsAndCanny)
    {
      isPhotoMode := mode;
    }

    method SetPhotoProcessingMode(mode: bool)
      modifies this
      ensures photoProcessingMode == mode
      ensures Snapshot() == old(Snapshot())
      ensures cam == old(cam) && paramS == old(paramS)
      ensures Valid() == old(Valid())
      ensures classifiedSkinBin == old(classifiedSkinBin) && dilated == old(dilated) && pixelsAndCanny == old(pixelsAndCanny)
    {
      photoProcessingMode := mode;
    }

    /** takePhoto: one read of the camera; the photo is announced when the read is not
        reported as failed. */
    method TakePhoto(readOk: bool, image: array2<Bgr>) returns (taken: bool)
      modifies cam
      ensures (cam.readFrameFails, taken) == ReadStep(old(cam.readFrameFails), readOk)
      ensures cam.frame == (if readOk then image else old(cam.frame))
      ensures cam.isOpen == old(cam.isOpen) && cam.device == old(cam.device)
    {
      taken := cam.TakeFrame(readOk, image);
    }

    /** findFace: fails only when the cascade is not loaded and cannot be; otherwise
        faceRect becomes the first detection of largest positive area, or the empty
        rectangle. */
    method DetectFace(cascadeLoads: bool, faces: seq<Rect>) returns (loaded: bool)
      modifies this
      ensures loaded == (old(cascadeLoaded) || cascadeLoads)
      ensures Snapshot() == (if loaded
        then old(Snapshot()).(cascadeLoaded := true, faceRect := SkinStage.LargestFace(faces, |faces|))
        else old(Snapshot()))
      ensures cam == old(cam) && paramS == old(paramS) && photoProcessingMode == old(photoProcessingMode)
      ensures classifiedSkinBin == old(classifiedSkinBin) && dilated == old(dilated) && pixelsAndCanny == old(pixelsAndCanny)
    {
      if !cascadeLoaded && !cascadeLoads {
        return false;
      }
      cascadeLoaded := true;
      faceRect := EmptyRect;
      for i := 0 to |faces|
        invariant faceRect == SkinStage.LargestFace(faces, i)
        invariant stop == old(stop) && startState == old(startState) && pixelClassifierTrained == old(pixelClassifierTrained)
        invariant isPhotoMode == old(isPhotoMode) && mergeTimes == old(mergeTimes) && cascadeLoaded
        invariant cam == old(cam) && paramS == old(paramS) && photoProcessingMode == old(photoProcessingMode)
        invariant classifiedSkinBin == old(classifiedSkinBin) && dilated == old(dilated) && pixelsAndCanny == old(pixelsAndCanny)
      {
        if faces[i].Area() > faceRect.Area() {
          faceRect := faces[i];
        }
      }
      return true;
    }

    /** The merge stage's switch with its fall-through. From mergeTimes 0 the horizontal
        pass fills a fresh copy of the dilated map row by row and the vertical pass then
        fills its columns; from 1 only the vertical pass runs, on the existing matrix; any
        other count leaves the matrix alone. The counter always ends at 0. */
    method MergeStage()
      requires Valid()
      modifies this, pixelsAndCanny
      ensures Valid()
      ensures Snapshot() == old(Snapshot()).(mergeTimes := 0)
      ensures old(mergeTimes) == 0 ==> fresh(pixelsAndCanny)
      ensures old(mergeTimes) == 0 ==>
        forall c :: 0 <= c < pixelsAndCanny.Length1 ==>
          RunFill.Line(pixelsAndCanny, false, c) == RunFill.TwoPassColumn(classifiedSkinBin, dilated, c)
      ensures old(mergeTimes) == 1 ==> pixelsAndCanny == old(pixelsAndCanny)
      ensures old(mergeTimes) == 1 ==>
        forall c :: 0 <= c < pixelsAndCanny.Length1 ==>
          RunFill.Line(pixelsAndCanny, false, c) ==
            RunFill.MergedLine(RunFill.Line(classifiedSkinBin, false, c), RunFill.Line(dilated, false, c),
                               old(RunFill.Line(pixelsAndCanny, false, c)))
      ensures old(mergeTimes) != 0 && old(mergeTimes) != 1 ==>
        pixelsAndCanny == old(pixelsAndCanny) && unchanged(pixelsAndCanny)
      ensures cam == old(cam) && paramS == old(paramS) && photoProcessingMode == old(photoProcessingMode)
      ensures classifiedSkinBin == old(classifiedSkinBin) && dilated == old(dilated)
    {
      if mergeTimes == 0 {
        pixelsAndCanny := RunFill.TwoPassMerge(classifiedSkinBin, dilated);
      } else if mergeTimes == 1 {
        pixelsAndCanny := RunFill.MergePixelsAndCanny(false, classifiedSkinBin, dilated, pixelsAndCanny);
      }
      mergeTimes := 0;
    }

    /** The camera stages: CloseCam releases the device and stops, OpenCam stops when the
        device cannot be opened, GetFrame reads one frame under the camera's failure rule. */
    method CameraStage(state: State, o: Outcome) returns (nextState: State)
      requires state == CloseCam || state == OpenCam || state == GetFrame
      modifies this, cam
      ensures (nextState, Snapshot()) == Next(state, old(Snapshot()), o)
      ensures cam == old(cam) && paramS == old(paramS) && photoProcessingMode == old(photoProcessingMode)
      ensures classifiedSkinBin == old(classifiedSkinBin) && dilated == old(dilated) && pixelsAndCanny == old(pixelsAndCanny)
      ensures cam.frame == (if state == GetFrame && old(cam.isOpen) && o.frameRead then o.image else old(cam.frame))
      ensures cam.device == old(cam.device)
    {
      if state == CloseCam {
        stop := true;
        nextState := Stop;
        cam.Close();
      } else if state == OpenCam {
        var ok := cam.Open(o.deviceOpens);
        if !ok {
          stop := true;
          nextState := Stop;
        } else {
          nextState := GetFrame;
        }
      } else if !cam.isOpen {
        stop := true;
        nextState := Stop;
      } else {
        var ok := cam.TakeFrame(o.frameRead, o.image);
        if !ok {
          nextState := CloseCam;
        } else if !stop && isPhotoMode {
          nextState := GetFrame;
        } else if !stop {
          nextState := FindFace;
        } else {
          nextState := Stop;
        }
      }
    }

    /** FindFace: closes the camera without a cascade, goes back to GetFrame (untrained)
        when no face is found, and on to GetSkinColor otherwise. */
    method FindFaceStage(o: Outcome) returns (nextState: State)
      modifies this
      ensures (nextState, Snapshot()) == Next(FindFace, old(Snapshot()), o)
      ensures cam == old(cam) && paramS == old(paramS) && photoProcessingMode == old(photoProcessingMode)
      ensures classifiedSkinBin == old(classifiedSkinBin) && dilated == old(dilated) && pixelsAndCanny == old(pixelsAndCanny)
    {
      if stop {
        return Stop;
      }
      var loaded := DetectFace(o.cascadeLoads, o.faces);
      if !loaded {
        nextState := CloseCam;
      } else if faceRect.Area() == 0 {
        pixelClassifierTrained := false;
        nextState := GetFrame;
      } else {
        nextState := GetSkinColor;
      }
    }

    /** The stages whose own work is done elsewhere and that only route and set flags. */
    method RouteStage(state: State, o: Outcome) returns (nextState: State)
      requires state !in {CloseCam, OpenCam, GetFrame, FindFace, MergePixelsAndCanny}
      modifies this
      ensures (nextState, Snapshot()) == Next(state, old(Snapshot()), o)
      ensures cam == old(cam) && paramS == old(paramS) && photoProcessingMode == old(photoProcessingMode)
      ensures classifiedSkinBin == old(classifiedSkinBin) && dilated == old(dilated) && pixelsAndCanny == old(pixelsAndCanny)
    {
      if state == Stop {
        return Stop;
      }
      if stop {
        return Stop;
      }
      match state
      case GetSkinColor =>
        if !pixelClassifierTrained {
          nextState := TrainPixelClassifier;
        } else {
          nextState := PixelRecognition;
        }
      case TrainPixelClassifier =>
        pixelClassifierTrained := o.trainingSucceeds;
        if !pixelClassifierTrained {
          nextState := CloseCam;
        } else {
          nextState := PixelRecognition;
        }
      case PixelRecognition =>
        nextState := Canny;
      case Canny =>
        mergeTimes := 0;
        nextState := MorphologyDilation;
      case MorphologyDilation =>
        nextState := MorphologyErode;
      case MorphologyErode =>
        nextState := MorphologyOpening;
      case MorphologyOpening =>
        nextState := HandRecognition;
      case HandRecognition =>
        if !o.handRecognized {
          return Stop;
        }
        nextState := startState;
    }

    /** One step of the stage machine, tied to Next. */
    method ProcessImage(state: State, o: Outcome) returns (nextState: State)
      requires Valid()
      modifies this, cam, pixelsAndCanny
      ensures Valid()
      ensures (nextState, Snapshot()) == Next(state, old(Snapshot()), o)
      ensures cam == old(cam) && paramS == old(paramS) && photoProcessingMode == old(photoProcessingMode)
      ensures classifiedSkinBin == old(classifiedSkinBin) && dilated == old(dilated)
      ensures pixelsAndCanny == old(pixelsAndCanny) || fresh(pixelsAndCanny)
      ensures state == MergePixelsAndCanny && !old(stop) && old(mergeTimes) == 0 ==>
        forall c :: 0 <= c < pixelsAndCanny.Length1 ==>
          RunFill.Line(pixelsAndCanny, false, c) == RunFill.TwoPassColumn(classifiedSkinBin, dilated, c)
      ensures state == MergePixelsAndCanny && !old(stop) && old(mergeTimes) == 1 ==>
        forall c :: 0 <= c < pixelsAndCanny.Length1 ==>
          RunFill.Line(pixelsAndCanny, false, c) ==
            RunFill.MergedLine(RunFill.Line(classifiedSkinBin, false, c), RunFill.Line(dilated, false, c),
                               old(RunFill.Line(pixelsAndCanny, false, c)))
      ensures state != MergePixelsAndCanny || old(stop) || (old(mergeTimes) != 0 && old(mergeTimes) != 1) ==>
        pixelsAndCanny == old(pixelsAndCanny) && unchanged(pixelsAndCanny)
      ensures cam.frame == (if state == GetFrame && old(cam.isOpen) && o.frameRead then o.image else old(cam.frame))
      ensures cam.device == old(cam.device)
    {
      if state == CloseCam || state == OpenCam || state == GetFrame {
        nextState := CameraStage(state, o);
      } else if state == FindFace {
        nextState := FindFaceStage(o);
      } else if state == MergePixelsAndCanny {
        if stop {
          return Stop;
        }
        MergeStage();
        nextState := MorphologyErode;
      } else {
        nextState := RouteStage(state, o);
      }
    }

    /** imageProcState: switching on resets the session (not stopped, start at GetFrame,
        untrained, photo mode on) and processes OpenCam; switching off processes
        CloseCam. Returns the stage queued next. */
    method ImageProcState(on: bool, o: Outcome) returns (nextState: State)
      requires Valid()
      modifies this, cam, pixelsAndCanny
      ensures Valid()
      ensures on ==>
        (nextState, Snapshot()) == Next(OpenCam, old(Snapshot()).(stop := false, startState := GetFrame, pixelClassifierTrained := false, isPhotoMode := true), o)
      ensures !on ==> (nextState, Snapshot()) == Next(CloseCam, old(Snapshot()), o)
      ensures cam == old(cam) && paramS == old(paramS) && photoProcessingMode == old(photoProcessingMode)
      ensures classifiedSkinBin == old(classifiedSkinBin) && dilated == old(dilated)
      ensures pixelsAndCanny == old(pixelsAndCanny) || fresh(pixelsAndCanny)
      ensures pixelsAndCanny == old(pixelsAndCanny) && unchanged(pixelsAndCanny)
      ensures cam.frame == old(cam.frame) && cam.device == old(cam.device)
    {
      if on {
        stop := false;
        startState := GetFrame;
        pixelClassifierTrained := false;
        isPhotoMode := true;
        nextState := ProcessImage(OpenCam, o);
      } else {
        nextState := ProcessImage(CloseCam, o);
      }
    }

    /** The queued self-dispatch: keeps processing while the next stage is not Stop, one
        outcome per step. */
    method Dispatch(state: State, os: seq<Outcome>) returns (final: State, steps: nat)
      requires Valid()
      modifies this, cam, pixelsAndCanny
      ensures Valid()
      ensures (final, Snapshot(), steps) == Trace(state, old(Snapshot()), os)
      ensures cam == old(cam) && paramS == old(paramS) && photoProcessingMode == old(photoProcessingMode)
      ensures classifiedSkinBin == old(classifiedSkinBin) && dilated == old(dilated) && cam.device == old(cam.device)
      ensures MergePixelsAndCanny !in Visits(state, old(Snapshot()), os) ==>
        pixelsAndCanny == old(pixelsAndCanny) && unchanged(pixelsAndCanny)
    {
      final, steps := state, 0;
      ghost var start := Snapshot();
      ghost var goal := Trace(state, start, os);
      ghost var all := Visits(state, start, os);
      ghost var visited: seq<State> := [];
      while final != Stop && steps < |os|
        invariant Valid()
        invariant steps <= |os|
        invariant TraceRest(final, Snapshot(), os[steps..], steps, goal)
        invariant VisitsRest(final, Snapshot(), os[steps..], visited, all)
        invariant cam == old(cam) && paramS == old(paramS) && photoProcessingMode == old(photoProcessingMode)
        invariant pixelsAndCanny == old(pixelsAndCanny) || fresh(pixelsAndCanny)
        invariant classifiedSkinBin == old(classifiedSkinBin) && dilated == old(dilated) && cam.device == old(cam.device)
        invariant MergePixelsAndCanny !in visited ==> pixelsAndCanny == old(pixelsAndCanny) && unchanged(pixelsAndCanny)
        decreases |os| - steps
      {
        ghost var before := Snapshot();
        ghost var current := final;
        ghost var rest := os[steps..];
        assert rest[1..] == os[steps + 1..];
        final := ProcessImage(final, os[steps]);
        DispatchStep(current, before, rest, final, Snapshot(), steps, goal, visited, all);
        visited := visited + [current];
        steps := steps + 1;
      }
      DispatchDone(final, Snapshot(), os[steps..], steps, goal, visited, all);
    }
  }
}
