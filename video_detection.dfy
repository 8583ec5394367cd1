/**
 * The video page (pages/video_detection.py, the detection part): run the pipeline, print the
 * per-frame lines, then show one "视频正常" per result until the first result whose
 * conclusion is "不合规", which gets the error and its raw result and ends the loop. Any
 * exception on the way replaces the rest with one failure message.
 */
module VideoDetection {
  import opened Wrappers
  import opened Python
  import opened Seqs
  import opened Classifier
  import opened Streamlit
  import opened Utils
  import opened VideoProcessing

  const ResultsHeading := "### 视频检测结果:"
  const BadVideoText := "视频中检测到不良图像!"
  const NormalVideoText := "视频正常"
  const FailureText := "视频检测失败，请稍后再试。"

  /** An uploaded video as the decoder sees it. */
  datatype Video = Video(fps: real, frames: seq<Frame>)

  /** A result that ends the verdict loop: `None` (raises at `.get`) or a "不合规" dict. */
  predicate EndsLoop(v: Verdict) {
    v.None? || IsBad(v.value)
  }

  /** The messages of the verdict loop. */
  function VerdictMessages(rs: seq<Verdict>): seq<Message> {
    match FirstIndexOf(rs, EndsLoop)
    case None => Repeat(Success(NormalVideoText), |rs|)
    case Some(j) =>
      Repeat(Success(NormalVideoText), j) + (if rs[j].None? then [] else [Error(BadVideoText), Write(rs[j].value)])
  }

  /** Whether the verdict loop reaches a `None` before any "不合规" result. */
  predicate VerdictLoopRaises(rs: seq<Verdict>) {
    var j := FirstIndexOf(rs, EndsLoop);
    j.Some? && rs[j.value].None?
  }

  /** The `for ... break` verdict loop. */
  method VerdictLoop(results: seq<Verdict>) returns (messages: seq<Message>, raised: Option<Exception>)
    ensures messages == VerdictMessages(results)
    ensures raised == if VerdictLoopRaises(results) then Some(AttributeError) else None
  {
    messages, raised := [], None;
    var count := 0;
    while count < |results|
      invariant 0 <= count <= |results|
      invariant forall i :: 0 <= i < count ==> !EndsLoop(results[i])
      invariant messages == Repeat(Success(NormalVideoText), count)
    {
      var result := results[count];
      if result.None? {
        raised := Some(AttributeError);
        return;
      }
      if Conclusion(result.value) == Some(NonCompliant) {
        messages := messages + [Error(BadVideoText), Write(result.value)];
        return;
      }
      messages := messages + [Success(NormalVideoText)];
      count := count + 1;
    }
  }

  /**
   * For all-dict results: with no "不合规" result, one success per result; otherwise one
   * success per result before the first "不合规" one, then its error and raw result. So at most
   * one error is shown, and it belongs to the first "不合规" result in completion order.
   */
  lemma VerdictSummary(rs: seq<Verdict>)
    requires AllDicts(rs)
    ensures !VerdictLoopRaises(rs)
    ensures (forall i :: 0 <= i < |rs| ==> !IsBad(rs[i].value)) ==>
              VerdictMessages(rs) == Repeat(Success(NormalVideoText), |rs|)
    ensures forall j :: 0 <= j < |rs| && IsBad(rs[j].value) && (forall i :: 0 <= i < j ==> !IsBad(rs[i].value)) ==>
              VerdictMessages(rs) == Repeat(Success(NormalVideoText), j) + [Error(BadVideoText), Write(rs[j].value)]
    ensures multiset(VerdictMessages(rs))[Error(BadVideoText)] <= 1
  {
    var first := FirstIndexOf(rs, EndsLoop);
    var j := if first.Some? then first.value else |rs|;
    var tail := if first.Some? then [Error(BadVideoText), Write(rs[j].value)] else [];
    assert VerdictMessages(rs) == Repeat(Success(NormalVideoText), j) + tail;
    assert multiset(Repeat(Success(NormalVideoText), j))[Error(BadVideoText)] == 0;
  }

  /** What `video_processing` followed by `display_video_results` and the loop show, once a video is uploaded. */
  function DetectionMessages(results: Result<seq<Verdict>, Exception>): seq<Message> {
    match results
    case Err(_) => [Error(FailureText)]
    case Ok(rs) =>
      if !AllDicts(rs) then [Error(FailureText)]
      else VerdictMessages(rs) + (if VerdictLoopRaises(rs) then [Error(FailureText)] else [])
  }

  /** An empty result list shows no verdict; a failed frame or a failed run shows only the failure. */
  lemma DetectionOutcomes(results: Result<seq<Verdict>, Exception>)
    ensures results == Ok([]) ==> DetectionMessages(results) == []
    ensures results.Err? || (results.Ok? && !AllDicts(results.value)) ==> DetectionMessages(results) == [Error(FailureText)]
    ensures results.Ok? && AllDicts(results.value) ==> DetectionMessages(results) == VerdictMessages(results.value)
  {
    if results.Ok? && AllDicts(results.value) {
      VerdictSummary(results.value);
    }
  }

  /** The `st.progress` bars `video_processing` shows, one per collected result. */
  function ProgressBars(progress: seq<real>): (ms: seq<Message>)
    ensures |ms| == |progress|
  {
    seq(|progress|, i requires 0 <= i < |progress| => ProgressBar(progress[i]))
  }

  /**
   * The page's messages and console lines for an upload (None when nothing is uploaded). A run
   * that returns shows its progress bars before the verdicts; a run that raises shows none.
   */
  function PageMessages(video: Option<Video>, displayVideo: bool, classify: (Frame, string) -> Verdict,
                        completion: seq<nat>): seq<Message>
    requires video.Some? ==> IsPermutation(completion, JobCount(|video.value.frames|, FrameInterval(video.value.fps)))
  {
    match video
    case None => []
    case Some(v) =>
      var results := VideoResults(v.frames, FrameInterval(v.fps), classify, completion);
      (if displayVideo then [VideoShown] else []) + [Markdown(ResultsHeading)]
      + (if results.Ok? then ProgressBars(Progress(|completion|)) else [])
      + DetectionMessages(results)
  }

  function PageConsole(video: Option<Video>, classify: (Frame, string) -> Verdict, completion: seq<nat>): seq<Line>
    requires video.Some? ==> IsPermutation(completion, JobCount(|video.value.frames|, FrameInterval(video.value.fps)))
  {
    match video
    case None => []
    case Some(v) =>
      match VideoResults(v.frames, FrameInterval(v.fps), classify, completion)
      case Err(_) => []
      case Ok(rs) => DisplayLines(rs)
  }

  /**
   * The body of the `try` after `video_processing` returned: print the per-frame lines, then run
   * the verdict loop; an AttributeError from either ends in the failure message.
   */
  method ReportResults(results: seq<Verdict>) returns (lines: seq<Line>, messages: seq<Message>)
    ensures lines == DisplayLines(results)
    ensures messages == DetectionMessages(Ok(results))
  {
    var displayRaised;
    lines, displayRaised := DisplayVideoResults(results);
    if displayRaised.Some? {
      return lines, [Error(FailureText)];
    }
    var loopRaised;
    messages, loopRaised := VerdictLoop(results);
    if loopRaised.Some? {
      messages := messages + [Error(FailureText)];
    }
  }

  /** `video_detection_page`, from the upload check to the except clause. */
  method VideoDetectionPage(video: Option<Video>, displayVideo: bool, classify: (Frame, string) -> Verdict,
                            completion: seq<nat>)
    returns (console: seq<Line>, messages: seq<Message>)
    requires video.Some? ==> IsPermutation(completion, JobCount(|video.value.frames|, FrameInterval(video.value.fps)))
    ensures messages == PageMessages(video, displayVideo, classify, completion)
    ensures console == PageConsole(video, classify, completion)
  {
    console, messages := [], [];
    if video.None? {
      return;
    }
    var v := video.value;
    if displayVideo {
      messages := messages + [VideoShown];
    }
    messages := messages + [Markdown(ResultsHeading)];
    // try:
    var run := ProcessVideo(v.fps, v.frames, classify, completion);
    if run.outcome.Err? {
      messages := messages + [Error(FailureText)];
      return;
    }
    messages := messages + ProgressBars(run.progress);
    var report;
    console, report := ReportResults(run.outcome.value);
    messages := messages + report;
  }
}
