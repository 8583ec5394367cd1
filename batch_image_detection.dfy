/**
 * The batch image page (pages/batch_image_detection.py, the detection loop): every uploaded
 * image, in upload order, gets its heading and exactly one verdict: bad, normal, or a failure
 * message when the service call failed (the `None` result raises at `.get` and is caught for
 * that image alone).
 */
module BatchImageDetection {
  import opened Wrappers
  import opened Classifier
  import opened Streamlit

  /** An uploaded image file. */
  datatype Upload = Upload(name: string, content: seq<bv8>)

  /** The verdict an image gets. */
  datatype ImageOutcome = Bad | Normal | Failed

  function OutcomeOf(v: Verdict): ImageOutcome {
    match v
    case None => Failed
    case Some(r) => if IsBad(r) then Bad else Normal
  }

  /** The verdict message for each outcome. */
  function VerdictMessage(name: string, o: ImageOutcome): Message {
    match o
    case Bad => Error("检测为不良图像: " + name)
    case Normal => Success("图像 " + name + " 正常")
    case Failed => Error("图像 " + name + " 检测失败，请稍后再试。")
  }

  /** `st.markdown(f"### 图像 {name} 检测结果:")` */
  function Heading(name: string): Message {
    Markdown("### 图像 " + name + " 检测结果:")
  }

  /** Everything shown for one image, given what the service returned for it. */
  function ImageMessages(u: Upload, displayImages: bool, v: Verdict): seq<Message> {
    (if displayImages then [ImageShown(u.name)] else [])
    + [Heading(u.name)]
    + (match v
       case None => [VerdictMessage(u.name, Failed)]
       case Some(r) => [VerdictMessage(u.name, OutcomeOf(v)), Write(r)])
  }

  /** The page's messages: the images' blocks in upload order. */
  function BatchMessages(uploads: seq<Upload>, displayImages: bool, classify: Upload -> Verdict): seq<Message> {
    if uploads == [] then []
    else
      var n := |uploads| - 1;
      BatchMessages(uploads[..n], displayImages, classify) + ImageMessages(uploads[n], displayImages, classify(uploads[n]))
  }

  /** `batch_image_detection_page` from `if uploaded_images:` on; nothing is shown for no upload. */
  method BatchImageDetectionPage(uploads: seq<Upload>, displayImages: bool, classify: Upload -> Verdict)
    returns (messages: seq<Message>)
    ensures messages == BatchMessages(uploads, displayImages, classify)
  {
    messages := [];
    var i := 0;
    while i < |uploads|
      invariant 0 <= i <= |uploads|
      invariant messages == BatchMessages(uploads[..i], displayImages, classify)
    {
      var u := uploads[i];
      assert uploads[..i + 1][..i] == uploads[..i];
      if displayImages {
        messages := messages + [ImageShown(u.name)];
      }
      messages := messages + [Heading(u.name)];
      // try:
      var result := classify(u);
      if result.None? {
        // None.get raises; the except clause reports this image and the loop goes on
        messages := messages + [Error("图像 " + u.name + " 检测失败，请稍后再试。")];
      } else {
        if Conclusion(result.value) == Some(NonCompliant) {
          messages := messages + [Error("检测为不良图像: " + u.name)];
        } else {
          messages := messages + [Success("图像 " + u.name + " 正常")];
        }
        messages := messages + [Write(result.value)];
      }
      i := i + 1;
    }
    assert uploads[..i] == uploads;
  }

  /** The verdict messages (errors and successes) among the page's output. */
  function Verdicts(ms: seq<Message>): seq<Message> {
    if ms == [] then []
    else
      var n := |ms| - 1;
      Verdicts(ms[..n]) + (if ms[n].Error? || ms[n].Success? then [ms[n]] else [])
  }

  lemma {:induction false} VerdictsAppend(a: seq<Message>, b: seq<Message>)
    ensures Verdicts(a + b) == Verdicts(a) + Verdicts(b)
    decreases |b|
  {
    if b == [] {
      assert a + b == a;
    } else {
      var n := |b| - 1;
      assert (a + b)[..|a + b| - 1] == a + b[..n];
      assert (a + b)[|a + b| - 1] == b[n];
      VerdictsAppend(a, b[..n]);
    }
  }

  lemma VerdictsSingle(m: Message)
    ensures Verdicts([m]) == if m.Error? || m.Success? then [m] else []
  {
    assert [m][..0] == [];
  }

  /** One image contributes exactly one verdict, decided by its own result only. */
  lemma ImageVerdict(u: Upload, displayImages: bool, v: Verdict)
    ensures Verdicts(ImageMessages(u, displayImages, v)) == [VerdictMessage(u.name, OutcomeOf(v))]
  {
    var shown: seq<Message> := if displayImages then [ImageShown(u.name)] else [];
    var verdict := VerdictMessage(u.name, OutcomeOf(v));
    var post: seq<Message> := if v.None? then [verdict] else [verdict, Write(v.value)];
    assert ImageMessages(u, displayImages, v) == (shown + [Heading(u.name)]) + post;
    VerdictsAppend(shown + [Heading(u.name)], post);
    VerdictsAppend(shown, [Heading(u.name)]);
    VerdictsSingle(Heading(u.name));
    if displayImages {
      VerdictsSingle(ImageShown(u.name));
    }
    VerdictsSingle(verdict);
    if v.Some? {
      assert post == [verdict] + [Write(v.value)];
      VerdictsAppend([verdict], [Write(v.value)]);
      VerdictsSingle(Write(v.value));
    }
  }

  /** The last image adds its own verdict after those of the images before it. */
  lemma BatchVerdictsStep(uploads: seq<Upload>, displayImages: bool, classify: Upload -> Verdict)
    requires uploads != []
    ensures var n := |uploads| - 1;
            Verdicts(BatchMessages(uploads, displayImages, classify))
            == Verdicts(BatchMessages(uploads[..n], displayImages, classify))
               + [VerdictMessage(uploads[n].name, OutcomeOf(classify(uploads[n])))]
  {
    var n := |uploads| - 1;
    VerdictsAppend(BatchMessages(uploads[..n], displayImages, classify),
                   ImageMessages(uploads[n], displayImages, classify(uploads[n])));
    ImageVerdict(uploads[n], displayImages, classify(uploads[n]));
  }

  /**
   * Each image is processed once, in upload order, with exactly one verdict of its own: a
   * failure for one image changes nothing for the others.
   */
  lemma {:induction false} BatchVerdicts(uploads: seq<Upload>, displayImages: bool, classify: Upload -> Verdict)
    ensures Verdicts(BatchMessages(uploads, displayImages, classify))
            == seq(|uploads|, i requires 0 <= i < |uploads| => VerdictMessage(uploads[i].name, OutcomeOf(classify(uploads[i]))))
  {
    if uploads != [] {
      var n := |uploads| - 1;
      var init := uploads[..n];
      BatchVerdicts(init, displayImages, classify);
      BatchVerdictsStep(uploads, displayImages, classify);
      var whole := seq(|uploads|, i requires 0 <= i < |uploads| => VerdictMessage(uploads[i].name, OutcomeOf(classify(uploads[i]))));
      var prefix := seq(n, i requires 0 <= i < n => VerdictMessage(init[i].name, OutcomeOf(classify(init[i]))));
      assert whole == prefix + [VerdictMessage(uploads[n].name, OutcomeOf(classify(uploads[n])))];
    }
  }

  /** The page is the images' blocks one after another. */
  lemma {:induction false} BatchAppend(a: seq<Upload>, b: seq<Upload>, displayImages: bool, classify: Upload -> Verdict)
    ensures BatchMessages(a + b, displayImages, classify)
            == BatchMessages(a, displayImages, classify) + BatchMessages(b, displayImages, classify)
    decreases |b|
  {
    if b == [] {
      assert a + b == a;
    } else {
      var n := |b| - 1;
      assert (a + b)[..|a + b| - 1] == a + b[..n];
      assert (a + b)[|a + b| - 1] == b[n];
      BatchAppend(a, b[..n], displayImages, classify);
    }
  }

  /** An image is reported bad exactly when its result is a dict whose conclusion is "不合规". */
  lemma OutcomeMeaning(v: Verdict)
    ensures OutcomeOf(v) == Bad <==> v.Some? && ConclusionKey in v.value && v.value[ConclusionKey] == NonCompliant
    ensures OutcomeOf(v) == Failed <==> v.None?
  {
  }
}
