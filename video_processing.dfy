/**
 * The video pipeline (functions/video_processing.py): read every frame, keep frame `count`
 * when `count % frame_interval == 0` (with `frame_interval = int(fps / 2)`), name it
 * "frames/frame{count:03d}.jpg", classify the kept frames on a thread pool and collect the
 * results in completion order, updating a progress bar after each one.
 *
 * The decoder is the sequence of frames it yields; the thread pool is a completion order, a
 * permutation of the submitted jobs; `process_frame` (write the JPEG, call the service) is the
 * function `classify` of the frame and its path.
 */
module VideoProcessing {
  import opened Wrappers
  import opened Python
  import opened Seqs
  import opened Classifier

  /** One decoded frame. */
  datatype Frame = Frame(pixels: seq<bv8>)

  /** One element of `frame_paths`: the frame and the file it is written to. */
  datatype Job = Job(frame: Frame, path: string)

  const FrameDirectory := "frames"
  const PathPrefix := "frames/frame"
  const PathSuffix := ".jpg"

  /** `int(fps / 2)`. */
  function FrameInterval(fps: real): (k: int)
    ensures fps >= 0.0 ==> k == (fps / 2.0).Floor
    ensures k == 0 <==> -2.0 < fps < 2.0
  {
    Trunc(fps / 2.0)
  }

  // ---- file names ------------------------------------------------------------------------

  predicate IsDigit(c: char) { '0' <= c <= '9' }

  function DigitChar(d: nat): (c: char)
    requires d < 10
    ensures IsDigit(c)
  {
    (48 + d) as char
  }

  function DigitValue(c: char): nat {
    if IsDigit(c) then (c as int - 48) as nat else 0
  }

  /** Decimal digits of `n`, without leading zeros. */
  function Decimal(n: nat): (s: string)
    ensures |s| >= 1
    ensures forall i :: 0 <= i < |s| ==> IsDigit(s[i])
  {
    if n < 10 then [DigitChar(n)] else Decimal(n / 10) + [DigitChar(n % 10)]
  }

  /** Left-pad `s` with zeros to at least `width` characters (the `03d` format). */
  function ZeroPad(s: string, width: nat): (r: string)
    ensures |r| == if |s| >= width then |s| else width
  {
    if |s| >= width then s else Repeat('0', width - |s|) + s
  }

  /** `os.path.join(frame_directory, f"frame{count:03d}.jpg")` with "/" as separator. */
  function FramePath(count: nat): string {
    FrameDirectory + "/" + "frame" + ZeroPad(Decimal(count), 3) + PathSuffix
  }

  /** The value of a string of digits, leading zeros allowed. */
  function ParseDecimal(s: string): nat {
    if s == [] then 0 else ParseDecimal(s[..|s| - 1]) * 10 + DigitValue(s[|s| - 1])
  }

  /** The frame index a path of the form "frames/frameNNN.jpg" names. */
  function FrameIndexOf(path: string): Option<nat> {
    if |path| >= |PathPrefix| + |PathSuffix|
       && path[..|PathPrefix|] == PathPrefix
       && path[|path| - |PathSuffix|..] == PathSuffix
    then
      var digits := path[|PathPrefix|..|path| - |PathSuffix|];
      if |digits| >= 3 && forall i :: 0 <= i < |digits| ==> IsDigit(digits[i])
      then Some(ParseDecimal(digits))
      else None
    else None
  }

  lemma {:induction false} ParseDecimalOfDecimal(n: nat)
    ensures ParseDecimal(Decimal(n)) == n
  {
    if n >= 10 {
      var s := Decimal(n / 10);
      assert (s + [DigitChar(n % 10)])[..|s|] == s;
      ParseDecimalOfDecimal(n / 10);
    }
  }

  lemma {:induction false} ParseLeadingZeros(z: nat, s: string)
    ensures ParseDecimal(Repeat('0', z) + s) == ParseDecimal(s)
    decreases |s|, z
  {
    if s == [] {
      assert Repeat('0', z) + s == Repeat('0', z);
      if z > 0 {
        assert Repeat('0', z)[..z - 1] == Repeat('0', z - 1);
        ParseLeadingZeros(z - 1, []);
        assert Repeat('0', z - 1) + [] == Repeat('0', z - 1);
      }
    } else {
      var t := Repeat('0', z) + s;
      assert t[..|t| - 1] == Repeat('0', z) + s[..|s| - 1];
      ParseLeadingZeros(z, s[..|s| - 1]);
    }
  }

  /** The path of frame `count` names `count` again: "frames/frame" + at least 3 digits + ".jpg". */
  lemma FramePathRoundTrip(count: nat)
    ensures FrameIndexOf(FramePath(count)) == Some(count)
    ensures |FramePath(count)| >= |PathPrefix| + 3 + |PathSuffix|
    ensures count < 1000 ==> |FramePath(count)| == |PathPrefix| + 3 + |PathSuffix|
  {
    var d := Decimal(count);
    var padded := ZeroPad(d, 3);
    var path := FramePath(count);
    assert path == PathPrefix + padded + PathSuffix;
    assert path[..|PathPrefix|] == PathPrefix;
    assert path[|path| - |PathSuffix|..] == PathSuffix;
    assert path[|PathPrefix|..|path| - |PathSuffix|] == padded;
    if |d| < 3 {
      ParseLeadingZeros(3 - |d|, d);
    }
    assert forall i :: 0 <= i < |padded| ==> IsDigit(padded[i]);
    ParseDecimalOfDecimal(count);
    if count < 1000 {
      DecimalLength(count);
    }
  }

  lemma {:induction false} DecimalLength(n: nat)
    requires n < 1000
    ensures |Decimal(n)| <= 3
  {
    if n >= 10 {
      DecimalLength(n / 10);
    }
  }

  /** Distinct frames never share a file. */
  lemma FramePathInjective(a: nat, b: nat)
    ensures FramePath(a) == FramePath(b) ==> a == b
  {
    FramePathRoundTrip(a);
    FramePathRoundTrip(b);
  }

  // ---- sampling --------------------------------------------------------------------------

  /** `count % frame_interval == 0` */
  predicate Selected(count: nat, interval: int)
    requires interval != 0
  {
    Mod(count, interval) == 0
  }

  /** The kept indices among the first `n` frames, in reading order. */
  function SampledIndices(n: nat, interval: int): (r: seq<nat>)
    requires interval != 0
    ensures InBounds(r, n)
    ensures forall i, j :: 0 <= i < j < |r| ==> r[i] < r[j]
    ensures forall c: nat :: c in r <==> c < n && Selected(c, interval)
  {
    if n == 0 then []
    else SampledIndices(n - 1, interval) + (if Selected(n - 1, interval) then [n - 1] else [])
  }

  /** `frame_paths` for the kept indices `idx`. */
  function JobsAt(video: seq<Frame>, idx: seq<nat>): (r: seq<Job>)
    requires InBounds(idx, |video|)
    ensures |r| == |idx|
  {
    seq(|idx|, i requires 0 <= i < |idx| => Job(video[idx[i]], FramePath(idx[i])))
  }

  /** What the read loop produces: `frame_paths`, or the ZeroDivisionError of `count % 0`. */
  function SampleOutcome(video: seq<Frame>, interval: int): Result<seq<Job>, Exception> {
    if interval == 0 then
      if video == [] then Ok([]) else Err(ZeroDivisionError)
    else
      Ok(JobsAt(video, SampledIndices(|video|, interval)))
  }

  /** ⌈n / |interval|⌉, the number of jobs; 0 for interval 0. */
  function JobCount(n: nat, interval: int): nat {
    if interval == 0 then 0 else (n + Abs(interval) - 1) / Abs(interval)
  }

  lemma MulAtLeast(d: int, m: int)
    requires d >= 1 && m > 0
    ensures d * m >= m
  {
    var k := d - 1;
    assert d * m == k * m + m;
    assert k * m >= 0;
  }

  lemma DivUnique(a: int, m: int, q: int, r: int)
    requires m > 0 && a == q * m + r && 0 <= r < m
    ensures a / m == q
  {
    var q0, r0 := a / m, a % m;
    assert a == q0 * m + r0;
    var d := q0 - q;
    assert d * m == q0 * m - q * m;
    assert d * m == r - r0;
    if d >= 1 {
      MulAtLeast(d, m);
    } else if d <= -1 {
      MulAtLeast(-d, m);
    }
  }

  /** ⌈(n+1)/m⌉ exceeds ⌈n/m⌉ exactly when m divides n. */
  lemma CeilStep(n: nat, m: nat)
    requires m >= 1
    ensures (n + m) / m == (n + m - 1) / m + (if n % m == 0 then 1 else 0)
  {
    var q, r := n / m, n % m;
    assert n == q * m + r;
    assert n + m == (q + 1) * m + r;
    DivUnique(n + m, m, q + 1, r);
    if r == 0 {
      DivUnique(n + m - 1, m, q, m - 1);
    } else {
      DivUnique(n + m - 1, m, q + 1, r - 1);
    }
  }

  /** With interval k ≠ 0, exactly ⌈n/|k|⌉ of n frames are kept, and frame 0 is one of them. */
  lemma {:induction false} SampledCount(n: nat, interval: int)
    requires interval != 0
    ensures |SampledIndices(n, interval)| == JobCount(n, interval)
    ensures n > 0 ==> SampledIndices(n, interval)[0] == 0
  {
    var m := Abs(interval);
    if n == 0 {
      DivUnique(m - 1, m, 0, m - 1);
    } else {
      SampledCount(n - 1, interval);
      CeilStep(n - 1, m);
      ModZero(n - 1, interval);
      ModZero(0, interval);
      assert 0 in SampledIndices(n, interval);
    }
  }

  lemma JobsAtSnoc(video: seq<Frame>, idx: seq<nat>, c: nat)
    requires InBounds(idx, |video|) && c < |video|
    ensures InBounds(idx + [c], |video|)
    ensures JobsAt(video, idx + [c]) == JobsAt(video, idx) + [Job(video[c], FramePath(c))]
  {
  }

  /**
   * The `while True` read loop. Each read advances `count` by one; a kept frame is appended
   * with its path. With interval 0 the first frame read raises; with no frame nothing does.
   */
  method SampleFrames(video: seq<Frame>, interval: int) returns (r: Result<seq<Job>, Exception>)
    ensures r == SampleOutcome(video, interval)
  {
    var count := 0;
    var framePaths: seq<Job> := [];
    while true
      invariant 0 <= count <= |video|
      invariant interval == 0 ==> count == 0 && framePaths == []
      invariant interval != 0 ==> InBounds(SampledIndices(count, interval), |video|)
      invariant interval != 0 ==> framePaths == JobsAt(video, SampledIndices(count, interval))
      decreases |video| - count
    {
      if count == |video| {
        break;  // cap.read() returns ret == False
      }
      var frame := video[count];
      if interval == 0 {
        return Err(ZeroDivisionError);
      }
      if Mod(count, interval) == 0 {
        JobsAtSnoc(video, SampledIndices(count, interval), count);
        framePaths := framePaths + [Job(frame, FramePath(count))];
      }
      count := count + 1;
    }
    r := Ok(framePaths);
  }

  // ---- classification and collection ------------------------------------------------------

  /** `process_frame(frame, path)`: write the JPEG, then ask the service about that file. */
  function ProcessFrame(classify: (Frame, string) -> Verdict, job: Job): Verdict {
    classify(job.frame, job.path)
  }

  /** The per-frame results in submission order. */
  function Outputs(jobs: seq<Job>, classify: (Frame, string) -> Verdict): (r: seq<Verdict>)
    ensures |r| == |jobs|
  {
    seq(|jobs|, i requires 0 <= i < |jobs| => ProcessFrame(classify, jobs[i]))
  }

  /** The progress bar values `(i + 1) / len(frame_paths)`. */
  function Progress(total: nat): (r: seq<real>)
    ensures |r| == total
  {
    seq(total, i requires 0 <= i < total => (i + 1) as real / total as real)
  }

  lemma DivideMonotone(a: real, b: real, t: real)
    requires t > 0.0 && a < b
    ensures a / t < b / t
  {
    assert a / t * t == a;
    assert b / t * t == b;
  }

  lemma DivideSelf(t: real)
    requires t > 0.0
    ensures t / t == 1.0
  {
    assert t / t * t == 1.0 * t;
  }

  /** The progress values strictly increase and the last is 1. */
  lemma ProgressIncreasing(total: nat)
    ensures forall i, j :: 0 <= i < j < total ==> Progress(total)[i] < Progress(total)[j]
    ensures total > 0 ==> Progress(total)[total - 1] == 1.0
  {
    forall i, j | 0 <= i < j < total
      ensures Progress(total)[i] < Progress(total)[j]
    {
      DivideMonotone((i + 1) as real, (j + 1) as real, total as real);
    }
    if total > 0 {
      DivideSelf(total as real);
    }
  }

  /**
   * The `as_completed` loop: one result per job, appended in completion order, and one
   * progress update per result.
   */
  method CollectResults(jobs: seq<Job>, classify: (Frame, string) -> Verdict, completion: seq<nat>)
    returns (results: seq<Verdict>, progress: seq<real>)
    requires IsPermutation(completion, |jobs|)
    ensures InBounds(completion, |jobs|)
    ensures results == Permute(Outputs(jobs, classify), completion)
    ensures multiset(results) == multiset(Outputs(jobs, classify))
    ensures progress == Progress(|jobs|)
  {
    PermutationBounded(completion, |jobs|);
    var outputs := Outputs(jobs, classify);
    results, progress := [], [];
    var i := 0;
    while i < |completion|
      invariant 0 <= i <= |completion|
      invariant results == Permute(outputs, completion[..i])
      invariant progress == Progress(|jobs|)[..i]
    {
      var job := jobs[completion[i]];
      results := results + [ProcessFrame(classify, job)];
      progress := progress + [(i + 1) as real / |jobs| as real];
      i := i + 1;
    }
    assert completion[..i] == completion;
    PermutePreservesMultiset(outputs, completion);
  }

  /** What `video_processing` returns, or the exception it raises. */
  function VideoResults(video: seq<Frame>, interval: int, classify: (Frame, string) -> Verdict,
                        completion: seq<nat>): Result<seq<Verdict>, Exception>
    requires IsPermutation(completion, JobCount(|video|, interval))
  {
    match SampleOutcome(video, interval)
    case Err(e) => Err(e)
    case Ok(jobs) =>
      assert |jobs| == JobCount(|video|, interval) by {
        if interval != 0 {
          SampledCount(|video|, interval);
        }
      }
      PermutationBounded(completion, |jobs|);
      Ok(Permute(Outputs(jobs, classify), completion))
  }

  /** The outcome of one call, the progress bar values shown, and whether `frames` was removed. */
  datatype Run = Run(outcome: Result<seq<Verdict>, Exception>, progress: seq<real>, framesRemoved: bool)

  /**
   * `video_processing(video_path)`. The `frames` directory is removed only when the call
   * returns normally: the removal is not in a `finally`.
   */
  method ProcessVideo(fps: real, video: seq<Frame>, classify: (Frame, string) -> Verdict, completion: seq<nat>)
    returns (run: Run)
    requires IsPermutation(completion, JobCount(|video|, FrameInterval(fps)))
    ensures run.outcome == VideoResults(video, FrameInterval(fps), classify, completion)
    ensures run.framesRemoved <==> run.outcome.Ok?
    ensures run.outcome.Ok? ==> run.progress == Progress(|completion|)
    ensures run.outcome.Err? ==> run.progress == []
    ensures match SampleOutcome(video, FrameInterval(fps))
            case Err(_) => true
            case Ok(jobs) => run.outcome.Ok? && multiset(run.outcome.value) == multiset(Outputs(jobs, classify))
  {
    var interval := FrameInterval(fps);
    var sampled := SampleFrames(video, interval);
    if sampled.Err? {
      return Run(Err(sampled.error), [], false);
    }
    var jobs := sampled.value;
    if interval != 0 {
      SampledCount(|video|, interval);
    }
    var results, progress := CollectResults(jobs, classify, completion);
    PermutationBounded(completion, |jobs|);
    // shutil.rmtree(frame_directory)
    run := Run(Ok(results), progress, true);
  }
}
