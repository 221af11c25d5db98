// Helpers from general.cpp: splitting an image path into its directory and file name,
// the file name saveImage chooses, and the white frame handRecCommands draws around a
// hand image before comparing it.

module ImagePaths {
  import opened Geometry

  /** Paths are Qt strings, modelled as character sequences. */
  type Path = seq<char>

  /** The position of the first '/' in s, or |s| when there is none. */
  function FirstSlash(s: Path): (i: nat)
    ensures i <= |s|
    ensures i < |s| ==> s[i] == '/'
    ensures forall k :: 0 <= k < i ==> s[k] != '/'
  {
    if s == [] then 0 else if s[0] == '/' then 0 else 1 + FirstSlash(s[1..])
  }

  /** split('/', SkipEmptyParts): the maximal '/'-free pieces of s that are not empty. */
  function Segments(s: Path): seq<Path>
    decreases |s|
  {
    if s == [] then []
    else
      var i := FirstSlash(s);
      var head := if s[..i] == [] then [] else [s[..i]];
      if i == |s| then head else head + Segments(s[i + 1..])
  }

  /** A piece that can stand between two separators. */
  predicate Clean(part: Path)
  {
    part != [] && '/' !in part
  }

  /** join("/"). */
  function Join(parts: seq<Path>): Path
  {
    if parts == [] then []
    else if |parts| == 1 then parts[0]
    else parts[0] + "/" + Join(parts[1..])
  }

  /** Characters k and k + 1 of p are both '/'. */
  predicate DoubleSlashAt(p: Path, k: nat)
    requires k + 1 < |p|
  {
    p[k] == '/' && p[k + 1] == '/'
  }

  /** A path without a leading, trailing or doubled '/', and not empty. */
  predicate Canonical(p: Path)
  {
    p != [] && p[0] != '/' && p[|p| - 1] != '/' &&
    forall k :: 0 <= k < |p| - 1 ==> !DoubleSlashAt(p, k)
  }

  /** getImageName: the last non-empty segment. QStringList::last needs a segment. */
  function GetImageName(path: Path): (name: Path)
    requires Segments(path) != []
    ensures Clean(name) && name in Segments(path)
  {
    SegmentsClean(path);
    Segments(path)[|Segments(path)| - 1]
  }

  /** getImagePath: the other segments joined with '/', and a final '/'. */
  function GetImagePath(path: Path): (dir: Path)
    requires Segments(path) != []
    ensures dir != [] && dir[|dir| - 1] == '/'
  {
    Join(Segments(path)[..|Segments(path)| - 1]) + "/"
  }

  /** Every segment is non-empty and free of '/'. */
  lemma {:induction false} SegmentsClean(s: Path)
    ensures forall k :: 0 <= k < |Segments(s)| ==> Clean(Segments(s)[k])
    decreases |s|
  {
    if s != [] {
      var i := FirstSlash(s);
      if i < |s| {
        SegmentsClean(s[i + 1..]);
      }
    }
  }

  /** The first '/' of a + "/" + b is the one after a, when a has none. */
  lemma FirstSlashAfter(a: Path, b: Path)
    requires '/' !in a
    ensures FirstSlash(a + "/" + b) == |a|
  {
    var s := a + "/" + b;
    var i := FirstSlash(s);
    assert s[|a|] == '/';
    assert forall k :: 0 <= k < |a| ==> s[k] == a[k];
  }

  /** Splitting a join of clean parts gives the parts back. */
  lemma {:induction false} SegmentsOfJoin(parts: seq<Path>)
    requires forall k :: 0 <= k < |parts| ==> Clean(parts[k])
    ensures Segments(Join(parts)) == parts
    decreases |parts|
  {
    if |parts| == 1 {
      assert FirstSlash(parts[0]) == |parts[0]|;
      assert parts[0][..|parts[0]|] == parts[0];
    } else if |parts| > 1 {
      var a, b := parts[0], Join(parts[1..]);
      var s := a + "/" + b;
      FirstSlashAfter(a, b);
      assert s[..|a|] == a;
      assert s[|a| + 1..] == b;
      SegmentsOfJoin(parts[1..]);
    }
  }

  /** A path whose first '/' is neither its first nor its last character splits there. */
  lemma SegmentsAtFirstSlash(p: Path)
    requires 0 < FirstSlash(p) < |p|
    ensures Segments(p) == [p[..FirstSlash(p)]] + Segments(p[FirstSlash(p) + 1..])
  {
  }

  /** What follows the first '/' of a canonical path is canonical again. */
  lemma CanonicalAfterSlash(p: Path, i: nat)
    requires Canonical(p) && i == FirstSlash(p) < |p|
    ensures Canonical(p[i + 1..])
  {
    var rest := p[i + 1..];
    assert i + 1 < |p|;
    assert rest[0] != '/' by {
      assert !DoubleSlashAt(p, i);
    }
    forall k | 0 <= k < |rest| - 1
      ensures !DoubleSlashAt(rest, k)
    {
      assert !DoubleSlashAt(p, i + 1 + k);
      assert rest[k] == p[i + 1 + k] && rest[k + 1] == p[i + 1 + k + 1];
    }
  }

  /** A path is the text before a '/', the '/', and the text after it. */
  lemma SplitAtSlash(p: Path, i: nat)
    requires i < |p| && p[i] == '/'
    ensures p == p[..i] + "/" + p[i + 1..]
  {
    assert p == p[..i] + p[i..];
    assert p[i..] == "/" + p[i + 1..];
  }

  /** Joining the segments of a canonical path gives the path back. */
  lemma {:induction false} JoinOfSegments(p: Path)
    requires Canonical(p)
    ensures Join(Segments(p)) == p
    ensures Segments(p) != []
    decreases |p|
  {
    var i := FirstSlash(p);
    assert i > 0;
    if i < |p| {
      var rest := p[i + 1..];
      CanonicalAfterSlash(p, i);
      JoinOfSegments(rest);
      SegmentsAtFirstSlash(p);
      var parts := [p[..i]] + Segments(rest);
      assert parts[1..] == Segments(rest);
      assert Join(parts) == p[..i] + "/" + rest;
      SplitAtSlash(p, i);
    } else {
      assert p[..i] == p;
    }
  }

  /** The join of a prefix of the parts and the next part. */
  lemma {:induction false} JoinSnoc(parts: seq<Path>)
    requires |parts| >= 2
    ensures Join(parts) == Join(parts[..|parts| - 1]) + "/" + parts[|parts| - 1]
    decreases |parts|
  {
    if |parts| > 2 {
      JoinSnoc(parts[1..]);
      assert parts[1..][..|parts| - 2] == parts[..|parts| - 1][1..];
    }
  }

  /** A join of clean parts is canonical. */
  lemma {:induction false} JoinCanonical(parts: seq<Path>)
    requires parts != [] && forall k :: 0 <= k < |parts| ==> Clean(parts[k])
    ensures Canonical(Join(parts))
    decreases |parts|
  {
    if |parts| > 1 {
      var a, b := parts[0], Join(parts[1..]);
      JoinCanonical(parts[1..]);
      var s := a + "/" + b;
      forall k | 0 <= k < |s| - 1
        ensures !DoubleSlashAt(s, k)
      {
        if k < |a| {
          assert s[k] == a[k];
        } else if k == |a| {
          assert s[k + 1] == b[0];
        } else {
          assert !DoubleSlashAt(b, k - |a| - 1);
          assert s[k] == b[k - |a| - 1] && s[k + 1] == b[k - |a|];
        }
      }
    }
  }

  /** getImageName returns a non-empty name without '/'. */
  lemma NameIsClean(path: Path)
    requires Segments(path) != []
    ensures Clean(GetImageName(path))
  {
    SegmentsClean(path);
  }

  /** getImagePath of a one-segment path is "/"; otherwise it is a canonical path followed
      by a single '/': no leading, doubled or extra trailing '/'. */
  lemma PathShape(path: Path)
    requires Segments(path) != []
    ensures |Segments(path)| == 1 ==> GetImagePath(path) == "/"
    ensures |Segments(path)| >= 2 ==>
      var dir := GetImagePath(path);
      Canonical(dir[..|dir| - 1]) && dir[|dir| - 1] == '/'
  {
    var segs := Segments(path);
    if |segs| >= 2 {
      SegmentsClean(path);
      var dir := GetImagePath(path);
      JoinCanonical(segs[..|segs| - 1]);
      assert dir[..|dir| - 1] == Join(segs[..|segs| - 1]);
    }
  }

  /** For a canonical path of at least two segments, directory and name put back together
      give the path. */
  lemma PathNameRoundTrip(path: Path)
    requires Canonical(path) && |Segments(path)| >= 2
    ensures GetImagePath(path) + GetImageName(path) == path
  {
    JoinOfSegments(path);
    JoinSnoc(Segments(path));
  }

  /** A one-segment path does not come back: its directory is "/" and not empty. */
  lemma SingleSegmentGainsSlash()
    ensures Segments("a.bmp") == ["a.bmp"]
    ensures GetImagePath("a.bmp") + GetImageName("a.bmp") == "/a.bmp"
  {
    assert FirstSlash("a.bmp") == 5;
    assert "a.bmp"[..5] == "a.bmp";
  }

  // ----- saveImage's file name -----

  /** QString::number of a non-negative count: its decimal digits. */
  function Decimal(n: nat): (s: Path)
    ensures s != []
    ensures forall k :: 0 <= k < |s| ==> '0' <= s[k] <= '9'
  {
    if n < 10 then [Digit(n)] else Decimal(n / 10) + [Digit(n % 10)]
  }

  function Digit(d: nat): (c: char)
    requires d < 10
    ensures '0' <= c <= '9' && c as int - '0' as int == d
  {
    ('0' as int + d) as char
  }

  /** The value of a string of decimal digits. */
  function DecimalValue(s: Path): nat
    requires forall k :: 0 <= k < |s| ==> '0' <= s[k] <= '9'
  {
    if s == [] then 0 else DecimalValue(s[..|s| - 1]) * 10 + (s[|s| - 1] as int - '0' as int)
  }

  /** Reading the digits back gives the number. */
  lemma {:induction false} DecimalRoundTrip(n: nat)
    ensures DecimalValue(Decimal(n)) == n
  {
    if n >= 10 {
      DecimalRoundTrip(n / 10);
      DecimalValueSnoc(Decimal(n / 10), n % 10);
    } else {
      assert Decimal(n)[..0] == [];
    }
  }

  /** Appending a digit multiplies the value by ten and adds the digit. */
  lemma DecimalValueSnoc(s: Path, d: nat)
    requires d < 10 && forall k :: 0 <= k < |s| ==> '0' <= s[k] <= '9'
    ensures DecimalValue(s + [Digit(d)]) == DecimalValue(s) * 10 + d
  {
    var t := s + [Digit(d)];
    assert t[..|t| - 1] == s;
  }

  /** saveImage: the empty string when the directory is missing and cannot be made, or
      when writing fails; otherwise dir + name, or dir + the current time in milliseconds
      + ".bmp" when no name is given. */
  function SaveImage(name: Path, dir: Path, dirReady: bool, nowMs: nat, written: bool): (fname: Path)
    ensures fname == [] <==> !dirReady || !written
    ensures fname != [] ==> |dir| <= |fname| && fname[..|dir|] == dir
  {
    if !dirReady then []
    else
      var fname := if name == [] then dir + Decimal(nowMs) + ".bmp" else dir + name;
      if !written then [] else fname
  }

  /** The chosen name starts with the directory; an empty name gives a time stamp with
      the ".bmp" extension, any other name is used as given. */
  lemma SaveImageName(name: Path, dir: Path, nowMs: nat)
    ensures var f := SaveImage(name, dir, true, nowMs, true);
      f[..|dir|] == dir &&
      (name != [] ==> f[|dir|..] == name) &&
      (name == [] ==> f[|f| - 4..] == ".bmp" && DecimalValue(f[|dir|..|f| - 4]) == nowMs)
    ensures SaveImage(name, dir, false, nowMs, true) == [] && SaveImage(name, dir, true, nowMs, false) == []
  {
    if name == [] {
      var f := SaveImage(name, dir, true, nowMs, true);
      assert f[|dir|..|f| - 4] == Decimal(nowMs);
      DecimalRoundTrip(nowMs);
    }
  }

  // ----- handRecCommands: the white frame -----

  const White: Bgr := Bgr(255, 255, 255)

  /** Cell (i, j) lies on the first or last row or column. */
  predicate OnBorder(rows: nat, cols: nat, i: nat, j: nat)
  {
    i == 0 || i == rows - 1 || j == 0 || j == cols - 1
  }

  /** A copy of the spot whose outermost rows and columns are white; the spot itself is
      left as it is. An image has either no cells or at least one row and one column. */
  method WhitenBorder(spot: array2<Bgr>) returns (img: array2<Bgr>)
    requires (spot.Length0 == 0) == (spot.Length1 == 0)
    ensures fresh(img)
    ensures img.Length0 == spot.Length0 && img.Length1 == spot.Length1
    ensures forall i, j :: 0 <= i < img.Length0 && 0 <= j < img.Length1 ==>
      img[i, j] == if OnBorder(img.Length0, img.Length1, i, j) then White else spot[i, j]
  {
    img := new Bgr[spot.Length0, spot.Length1]((i: nat, j: nat) reads spot =>
      if i < spot.Length0 && j < spot.Length1 then spot[i, j] else White);
    var rows, cols := img.Length0, img.Length1;
    // Top border, bottom border
    for j := 0 to cols
      invariant forall r, c :: 0 <= r < rows && 0 <= c < cols ==>
        img[r, c] == if (r == 0 || r == rows - 1) && c < j then White else spot[r, c]
    {
      img[0, j] := White;
      img[rows - 1, j] := White;
    }
    // Left border, right border
    for i := 0 to rows
      invariant forall r, c :: 0 <= r < rows && 0 <= c < cols ==>
        img[r, c] == if r == 0 || r == rows - 1 || ((c == 0 || c == cols - 1) && r < i) then White else spot[r, c]
    {
      img[i, 0] := White;
      img[i, cols - 1] := White;
    }
  }
}
