/**
 * The Streamlit medical-record page of st_ocr/app.py: the brightness
 * decision before binarisation, and the loop that keeps the recognised
 * lines whose confidence reaches the threshold and joins them into the text
 * that is shown and saved.
 */
module StreamlitOcr {
  import opened Wrappers
  import opened Pixels

  // ---------------------------------------------------------------------
  // Brightness decision.
  // ---------------------------------------------------------------------

  /**
   * `auto_invert_if_needed` (lines 14-18): the colour image `img` is inverted
   * when the mean of its grey version `gray` is below 120. The grey
   * conversion is an input; an empty grey image has a NaN mean, which is
   * not below 120.
   */
  function AutoInvertLight(img: seq<int>, gray: seq<int>): (r: seq<int>)
    ensures r == img || r == Invert(img)
    ensures |r| == |img|
  {
    if |gray| > 0 && Mean(gray) < 120.0 then Invert(img) else img
  }

  /** A non-empty image is inverted exactly when its grey mean is below 120. */
  lemma AutoInvertLightDecision(img: seq<int>, gray: seq<int>)
    requires |img| > 0
    ensures AutoInvertLight(img, gray) == Invert(img) <==> |gray| > 0 && Mean(gray) < 120.0
  {
    InvertChanges(img);
  }

  /**
   * A dark page comes out light: for an image that is its own grey version,
   * the mean of the result is at least 120.
   */
  lemma AutoInvertLightMean(gray: seq<int>)
    requires |gray| > 0
    ensures Mean(AutoInvertLight(gray, gray)) >= 120.0
  {
    MeanAbove(gray, 120.0);
    if Mean(gray) < 120.0 {
      SumInvert(gray);
      MeanAbove(Invert(gray), 120.0);
    }
  }

  // ---------------------------------------------------------------------
  // The confidence filter.
  // ---------------------------------------------------------------------

  /** One recognised line, `[box, (text, confidence)]`; the box plays no part here. */
  datatype Detection = Detection(text: string, conf: real)

  /** `CONF_THRESH`: the confidence a line needs to be kept. */
  const ConfThresh: real := 0.4

  /** The texts of the lines whose confidence reaches the threshold, in detector order. */
  function KeptTexts(ds: seq<Detection>): (ts: seq<string>)
    ensures |ts| <= |ds|
  {
    if ds == [] then []
    else
      var last := ds[|ds| - 1];
      KeptTexts(ds[..|ds| - 1]) + if last.conf >= ConfThresh then [last.text] else []
  }

  /** Each text followed by one line break, in order. */
  function Lines(ts: seq<string>): string
  {
    if ts == [] then "" else ts[0] + "\n" + Lines(ts[1..])
  }

  /** `result and result[0]`: the detector found at least one line on the first page. */
  predicate Detected(result: seq<Option<seq<Detection>>>)
  {
    |result| > 0 && result[0].Some? && |result[0].value| > 0
  }

  /** Filtering works line by line: two runs of lines are filtered in turn. */
  lemma {:induction false} KeptTextsAppend(a: seq<Detection>, b: seq<Detection>)
    ensures KeptTexts(a + b) == KeptTexts(a) + KeptTexts(b)
  {
    if b == [] {
      assert a + b == a;
    } else {
      var init := b[..|b| - 1];
      KeptTextsAppend(a, init);
      assert (a + b)[..|a + b| - 1] == a + init;
      assert (a + b)[|a + b| - 1] == b[|b| - 1];
    }
  }

  /** A single line is kept exactly when its confidence is at least 0.40; the boundary is inclusive. */
  lemma KeptTextsOne(d: Detection)
    ensures KeptTexts([d]) == [d.text] <==> d.conf >= 0.4
    ensures KeptTexts([d]) == [] <==> d.conf < 0.4
  {
    assert [d][..0] == [];
  }

  /** A line with confidence exactly 0.40 is kept. */
  lemma ThresholdIsInclusive(t: string)
    ensures KeptTexts([Detection(t, 0.4)]) == [t]
  {
    KeptTextsOne(Detection(t, 0.4));
  }

  /** When every line reaches the threshold every text is kept, in order. */
  lemma {:induction false} KeptTextsAll(ds: seq<Detection>)
    requires forall i :: 0 <= i < |ds| ==> ds[i].conf >= ConfThresh
    ensures |KeptTexts(ds)| == |ds|
    ensures forall i :: 0 <= i < |ds| ==> KeptTexts(ds)[i] == ds[i].text
  {
    if ds != [] {
      KeptTextsAll(ds[..|ds| - 1]);
    }
  }

  /** When no line reaches the threshold nothing is kept. */
  lemma {:induction false} KeptTextsNone(ds: seq<Detection>)
    requires forall i :: 0 <= i < |ds| ==> ds[i].conf < ConfThresh
    ensures KeptTexts(ds) == []
  {
    if ds != [] {
      KeptTextsNone(ds[..|ds| - 1]);
    }
  }

  /** Appending one more text appends it and its line break. */
  lemma {:induction false} LinesSnoc(ts: seq<string>, t: string)
    ensures Lines(ts + [t]) == Lines(ts) + t + "\n"
  {
    if ts == [] {
      assert [] + [t] == [t];
      assert [t][1..] == [];
    } else {
      assert (ts + [t])[0] == ts[0];
      assert (ts + [t])[1..] == ts[1..] + [t];
      LinesSnoc(ts[1..], t);
    }
  }

  /** The position of the first line break in `s`, or `|s|` when there is none. */
  function BreakAt(s: string): (k: nat)
    ensures k <= |s|
    ensures k < |s| ==> s[k] == '\n'
    ensures forall j :: 0 <= j < k ==> s[j] != '\n'
  {
    if s == [] || s[0] == '\n' then 0 else 1 + BreakAt(s[1..])
  }

  /** Reading a text back line by line; a last line without a break is kept too. */
  function SplitLines(s: string): seq<string>
    decreases |s|
  {
    if s == [] then []
    else
      var k := BreakAt(s);
      if k == |s| then [s] else [s[..k]] + SplitLines(s[k + 1..])
  }

  predicate NoBreaks(ts: seq<string>)
  {
    forall i :: 0 <= i < |ts| ==> '\n' !in ts[i]
  }

  /**
   * Every kept text is followed by exactly one line break: reading the saved
   * text back line by line gives the kept texts, when no text holds a break
   * of its own.
   */
  lemma {:induction false} SplitLinesOfLines(ts: seq<string>)
    requires NoBreaks(ts)
    ensures SplitLines(Lines(ts)) == ts
  {
    if ts != [] {
      var t, rest := ts[0], Lines(ts[1..]);
      var s := t + "\n" + rest;
      assert s == Lines(ts);
      assert s[|t|] == '\n';
      assert forall j :: 0 <= j < |t| ==> s[j] == t[j];
      assert BreakAt(s) == |t|;
      assert s[..|t|] == t;
      assert s[|t| + 1..] == rest;
      assert NoBreaks(ts[1..]);
      SplitLinesOfLines(ts[1..]);
    }
  }

  /**
   * The loop of lines 94-101: the text of each line of the first page whose
   * confidence is at least 0.40 is appended with a line break; with no
   * detection the text stays empty and a warning is shown instead.
   */
  method ExtractText(result: seq<Option<seq<Detection>>>) returns (text: string, detected: bool)
    ensures detected <==> Detected(result)
    ensures !detected ==> text == ""
    ensures detected ==> text == Lines(KeptTexts(result[0].value))
  {
    text := "";
    detected := |result| > 0 && result[0].Some? && |result[0].value| > 0;
    if detected {
      var ds := result[0].value;
      var i := 0;
      while i < |ds|
        invariant 0 <= i <= |ds|
        invariant text == Lines(KeptTexts(ds[..i]))
      {
        var d := ds[i];
        ghost var kept := KeptTexts(ds[..i]);
        assert ds[..i + 1][..i] == ds[..i] && ds[..i + 1][i] == d;
        if d.conf >= ConfThresh {
          assert KeptTexts(ds[..i + 1]) == kept + [d.text];
          LinesSnoc(kept, d.text);
          text := text + (d.text + "\n");
        } else {
          assert KeptTexts(ds[..i + 1]) == kept + [];
          assert kept + [] == kept;
        }
        i := i + 1;
      }
      assert ds[..|ds|] == ds;
    }
  }
}
