// The capture device wrapper: whether the device is open, the last grabbed frame, and the
// count of consecutive failed attempts that decides when a read failure becomes fatal.

module CameraDevice {
  import opened Geometry

  /** After this many consecutive failed attempts the failure is reported. */
  const CriticalReadFrameFails: int := 24

  /** The counter and the reported success after one read attempt: a good read clears the
      counter, a failed one counts and is reported only when the count reaches the
      threshold. */
  function ReadStep(readFrameFails: int, readOk: bool): (r: (int, bool))
    ensures readOk ==> r == (0, true)
    ensures !readOk ==> r.0 == readFrameFails + 1
    ensures !r.1 <==> !readOk && r.0 == CriticalReadFrameFails
  {
    if readOk then (0, true)
    else (readFrameFails + 1, readFrameFails + 1 != CriticalReadFrameFails)
  }

  /** The results reported for a series of read attempts. */
  function Reports(readFrameFails: int, attempts: seq<bool>): (r: seq<bool>)
    ensures |r| == |attempts|
    decreases |attempts|
  {
    if attempts == [] then []
    else
      var (fails, ok) := ReadStep(readFrameFails, attempts[0]);
      [ok] + Reports(fails, attempts[1..])
  }

  /** The counter after a series of read attempts. */
  function FailsAfter(readFrameFails: int, attempts: seq<bool>): (fails: int)
    ensures (forall k :: 0 <= k < |attempts| ==> !attempts[k]) ==> fails == readFrameFails + |attempts|
    ensures (exists k :: 0 <= k < |attempts| && attempts[k]) ==> 0 <= fails < |attempts|
    decreases |attempts|
  {
    if attempts == [] then readFrameFails
    else FailsAfter(ReadStep(readFrameFails, attempts[0]).0, attempts[1..])
  }

  /** n consecutive failed attempts. */
  function Failures(n: nat): (s: seq<bool>)
    ensures |s| == n && forall k :: 0 <= k < n ==> !s[k]
  {
    seq(n, _ => false)
  }

  /** In a run of failures, the k-th attempt (from 0) is reported as fatal exactly when it
      brings the counter to the threshold; the counter grows by one per failure. */
  lemma {:induction false} FailureRunReports(readFrameFails: int, n: nat)
    ensures FailsAfter(readFrameFails, Failures(n)) == readFrameFails + n
    ensures forall k :: 0 <= k < n ==>
      (!Reports(readFrameFails, Failures(n))[k] <==> readFrameFails + k + 1 == CriticalReadFrameFails)
    decreases n
  {
    if n > 0 {
      assert Failures(n)[1..] == Failures(n - 1);
      FailureRunReports(readFrameFails + 1, n - 1);
    }
  }

  /** From a fresh counter, the 24th failure in a row is the only one reported, and the
      25th is reported as a success again. */
  lemma OnlyTwentyFourthFailureReported(n: nat)
    requires n >= 25
    ensures !Reports(0, Failures(n))[23]
    ensures Reports(0, Failures(n))[24]
    ensures forall k :: 0 <= k < n && k != 23 ==> Reports(0, Failures(n))[k]
  {
    FailureRunReports(0, n);
  }

  /** Once the counter is past the threshold, further failures are never reported until a
      read succeeds. */
  lemma PastThresholdSilent(readFrameFails: int, n: nat)
    requires readFrameFails >= CriticalReadFrameFails
    ensures forall k :: 0 <= k < n ==> Reports(readFrameFails, Failures(n))[k]
  {
    FailureRunReports(readFrameFails, n);
  }

  /** A successful read always clears the counter, whatever came before. */
  lemma {:induction false} SuccessResets(readFrameFails: int, attempts: seq<bool>)
    requires attempts != [] && attempts[|attempts| - 1]
    ensures FailsAfter(readFrameFails, attempts) == 0
    ensures Reports(readFrameFails, attempts)[|attempts| - 1]
    decreases |attempts|
  {
    if |attempts| > 1 {
      SuccessResets(ReadStep(readFrameFails, attempts[0]).0, attempts[1..]);
    }
  }

  class Camera {
    /** Whether the capture device is open. */
    var isOpen: bool
    /** The device number. */
    var device: int
    /** Consecutive failed attempts. */
    var readFrameFails: int
    /** The last grabbed frame. */
    var frame: array2<Bgr>

    constructor ()
      ensures !isOpen && device == 0 && readFrameFails == 0
      ensures frame.Length0 == 0 && frame.Length1 == 0
    {
      isOpen := false;
      device := 0;
      readFrameFails := 0;
      frame := new Bgr[0, 0];
    }

    /** Opens the device; `deviceOk` is whether the capture library could open it. */
    method Open(deviceOk: bool) returns (ok: bool)
      modifies this
      ensures ok == deviceOk && isOpen == deviceOk
      ensures device == old(device) && readFrameFails == old(readFrameFails) && frame == old(frame)
    {
      isOpen := deviceOk;
      ok := deviceOk;
    }

    /** One read attempt; `readOk` is whether the device delivered `image`. A failure
        counts, and only the failure that brings the count to the threshold is reported;
        a success stores the image and clears the count. */
    method TakeFrame(readOk: bool, image: array2<Bgr>) returns (ok: bool)
      modifies this
      ensures (readFrameFails, ok) == ReadStep(old(readFrameFails), readOk)
      ensures frame == (if readOk then image else old(frame))
      ensures isOpen == old(isOpen) && device == old(device)
    {
      if !readOk {
        readFrameFails := readFrameFails + 1;
        if readFrameFails == CriticalReadFrameFails {
          return false;
        }
        return true;
      }
      frame := image;
      readFrameFails := 0;
      return true;
    }

    /** Releases the device if it is open; a second call does nothing. */
    method Close()
      modifies this
      ensures !isOpen
      ensures device == old(device) && readFrameFails == old(readFrameFails) && frame == old(frame)
    {
      if isOpen {
        isOpen := false;
      }
    }

    /** A copy of the last frame; the stored frame is left as it is. */
    method GetFrame() returns (retFrame: array2<Bgr>)
      ensures fresh(retFrame)
      ensures retFrame.Length0 == frame.Length0 && retFrame.Length1 == frame.Length1
      ensures forall i, j :: 0 <= i < frame.Length0 && 0 <= j < frame.Length1 ==> retFrame[i, j] == frame[i, j]
    {
      retFrame := new Bgr[frame.Length0, frame.Length1]((i, j) => Bgr(0, 0, 0));
      for i := 0 to frame.Length0
        invariant forall r, c :: 0 <= r < i && 0 <= c < frame.Length1 ==> retFrame[r, c] == frame[r, c]
      {
        for j := 0 to frame.Length1
          invariant forall r, c :: 0 <= r < i && 0 <= c < frame.Length1 ==> retFrame[r, c] == frame[r, c]
          invariant forall c :: 0 <= c < j ==> retFrame[i, c] == frame[i, c]
        {
          retFrame[i, j] := frame[i, j];
        }
      }
    }
  }
}
