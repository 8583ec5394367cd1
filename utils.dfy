/**
 * Two helpers of utils.py: `display_video_results`, which prints three console lines per
 * result, and the `sizes` of the pie chart in `visualize_detection_results`.
 */
module Utils {
  import opened Wrappers
  import opened Python
  import opened Seqs
  import opened Classifier

  /** One line `display_video_results` prints. */
  datatype Line =
    | FrameHeader(index: nat)          // "### Frame {count}"
    | FrameInappropriate(index: nat)   // "Frame {count} contains inappropriate content!"
    | FrameNormal(index: nat)          // "Frame {count} is normal."
    | Raw(result: Response)            // print(result)

  predicate IsNone(v: Verdict) {
    v.None?
  }

  /** Every result is a dict (no `None` from a failed request). */
  predicate AllDicts(rs: seq<Verdict>) {
    forall i :: 0 <= i < |rs| ==> rs[i].Some?
  }

  function VerdictLine(index: nat, r: Response): Line {
    if IsBad(r) then FrameInappropriate(index) else FrameNormal(index)
  }

  /** The lines for result `index`; for `None` only the header, printed before `.get` raises. */
  function FrameBlock(index: nat, v: Verdict): seq<Line> {
    match v
    case None => [FrameHeader(index)]
    case Some(r) => [FrameHeader(index), VerdictLine(index, r), Raw(r)]
  }

  /** The blocks of all of `rs`, in list order. */
  function Blocks(rs: seq<Verdict>): seq<Line> {
    if rs == [] then [] else Blocks(rs[..|rs| - 1]) + FrameBlock(|rs| - 1, rs[|rs| - 1])
  }

  /** The console output: blocks in list order, up to and including the header of the first `None`. */
  function DisplayLines(rs: seq<Verdict>): seq<Line> {
    match FirstIndexOf(rs, IsNone)
    case None => Blocks(rs)
    case Some(j) => Blocks(rs[..j]) + FrameBlock(j, rs[j])
  }

  lemma {:induction false} BlocksAt(rs: seq<Verdict>, i: nat)
    requires AllDicts(rs) && i < |rs|
    ensures |Blocks(rs)| == 3 * |rs|
    ensures Blocks(rs)[3 * i] == FrameHeader(i)
    ensures Blocks(rs)[3 * i + 1] == VerdictLine(i, rs[i].value)
    ensures Blocks(rs)[3 * i + 2] == Raw(rs[i].value)
  {
    var n := |rs| - 1;
    var init := rs[..n];
    assert AllDicts(init);
    if i < n {
      BlocksAt(init, i);
      assert init[i] == rs[i];
    } else if n > 0 {
      BlocksAt(init, 0);
    }
  }

  /** For all-dict results: three lines per result, header, verdict and raw result, in list order. */
  lemma DisplayLinesAt(rs: seq<Verdict>, i: nat)
    requires AllDicts(rs) && i < |rs|
    ensures |DisplayLines(rs)| == 3 * |rs|
    ensures DisplayLines(rs)[3 * i] == FrameHeader(i)
    ensures DisplayLines(rs)[3 * i + 1] == VerdictLine(i, rs[i].value)
    ensures DisplayLines(rs)[3 * i + 2] == Raw(rs[i].value)
  {
    BlocksAt(rs, i);
  }

  /** A `None` at j: the blocks before it, then its header alone; nothing after it is printed. */
  lemma DisplayLinesNone(rs: seq<Verdict>, j: nat)
    requires j < |rs| && rs[j].None? && AllDicts(rs[..j])
    ensures DisplayLines(rs) == Blocks(rs[..j]) + [FrameHeader(j)]
  {
    assert forall i :: 0 <= i < j ==> rs[..j][i] == rs[i];
  }

  /** A frame is reported inappropriate exactly when its conclusion is "不合规". */
  lemma VerdictLineMeaning(index: nat, r: Response)
    ensures VerdictLine(index, r).FrameInappropriate? <==> ConclusionKey in r && r[ConclusionKey] == NonCompliant
    ensures VerdictLine(index, r).index == index
  {
  }

  /**
   * The loop of `display_video_results`: for each result its header, then its verdict line
   * and the raw result; a `None` raises AttributeError at `.get`, after its header.
   */
  method DisplayVideoResults(results: seq<Verdict>) returns (lines: seq<Line>, raised: Option<Exception>)
    ensures lines == DisplayLines(results)
    ensures raised == if AllDicts(results) then None else Some(AttributeError)
  {
    lines := [];
    var count := 0;
    while count < |results|
      invariant 0 <= count <= |results|
      invariant forall i :: 0 <= i < count ==> !IsNone(results[i])
      invariant lines == Blocks(results[..count])
    {
      var result := results[count];
      assert results[..count + 1][..count] == results[..count];
      lines := lines + [FrameHeader(count)];
      if result.None? {
        return lines, Some(AttributeError);
      }
      if Conclusion(result.value) == Some(NonCompliant) {
        lines := lines + [FrameInappropriate(count)];
      } else {
        lines := lines + [FrameNormal(count)];
      }
      lines := lines + [Raw(result.value)];
      count := count + 1;
    }
    assert results[..count] == results;
    raised := None;
  }

  // ---- pie chart sizes ------------------------------------------------------------------

  /** The labels of the chart, aligned with `sizes`. */
  const PieLabels := [Compliant, NonCompliant]

  /** `list.count(x)` on a list of conclusions (None where a result had none). */
  function Count(s: seq<Option<string>>, x: Option<string>): (c: nat)
    ensures c == multiset(s)[x]
  {
    if s == [] then 0
    else
      assert s == [s[0]] + s[1..];
      (if s[0] == x then 1 else 0) + Count(s[1..], x)
  }

  /** `sizes = [results.count('合规'), results.count('不合规')]` */
  function PieSizes(conclusions: seq<Option<string>>): (sizes: seq<nat>)
    ensures |sizes| == |PieLabels|
    ensures forall i :: 0 <= i < |sizes| ==> sizes[i] == multiset(conclusions)[Some(PieLabels[i])]
  {
    [Count(conclusions, Some(Compliant)), Count(conclusions, Some(NonCompliant))]
  }

  /** Entries with neither label are counted nowhere, so the two sizes never exceed the list. */
  lemma {:induction false} PieSizesBounded(conclusions: seq<Option<string>>)
    ensures PieSizes(conclusions)[0] + PieSizes(conclusions)[1] <= |conclusions|
    ensures PieSizes(conclusions)[0] + PieSizes(conclusions)[1] == |conclusions| <==>
              forall i :: 0 <= i < |conclusions| ==> conclusions[i] in {Some(Compliant), Some(NonCompliant)}
  {
    if conclusions != [] {
      var rest := conclusions[1..];
      PieSizesBounded(rest);
      assert conclusions == [conclusions[0]] + rest;
      assert forall i :: 0 <= i < |rest| ==> rest[i] == conclusions[i + 1];
    }
  }
}
