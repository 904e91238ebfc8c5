/** `TesseractOCREngine::parseConfidenceFromTSV`: the mean word confidence of
    Tesseract's TSV output, scaled to 0..1, with 0.8 as the fallback. The
    file's text (after `QIODevice::Text` line-ending translation) and
    `QString::toFloat` are oracles; confidences are reals, so float32
    rounding is not modelled. */
module Confidence {
  import opened Text
  import opened Wrappers

  /** The value returned whenever there is nothing to average. */
  const DefaultConfidence: real := 0.8

  /** Index of the `conf` column and of the `text` column. */
  const ConfColumn: nat := 10
  const TextColumn: nat := 11

  /** A data row counts when it has a `text` column that is not blank and its
      `conf` column parses to a non-negative number. */
  predicate Qualifies(columns: seq<string>, parse: string -> Option<real>)
  {
    && |columns| >= ConfColumn + 1
    && parse(columns[ConfColumn]).Some?
    && parse(columns[ConfColumn]).value >= 0.0
    && |columns| > TextColumn
    && !Blank(columns[TextColumn])
  }

  /** Only white space: what `trimmed().isEmpty()` detects. */
  predicate Blank(s: string)
  {
    forall i :: 0 <= i < |s| ==> IsSpace(s[i])
  }

  /** `Qualifies` is the source's test as written, with the text column
      trimmed and compared with the empty string. */
  lemma QualifiesAsWritten(columns: seq<string>, parse: string -> Option<real>)
    ensures Qualifies(columns, parse)
        <==> && |columns| >= ConfColumn + 1
             && parse(columns[ConfColumn]).Some?
             && parse(columns[ConfColumn]).value >= 0.0
             && |columns| > TextColumn
             && Trim(columns[TextColumn]) != ""
  {
    if |columns| > TextColumn {
      TrimEmptyIff(columns[TextColumn]);
    }
  }

  /** The data rows cut at tabs, one column list per line. */
  function Table(rows: seq<string>): (t: seq<seq<string>>)
    ensures |t| == |rows|
  {
    seq(|rows|, k requires 0 <= k < |rows| => Split(rows[k], '\t'))
  }

  /** The confidence one row contributes, if it qualifies. */
  function RowConfidence(columns: seq<string>, parse: string -> Option<real>): (c: Option<real>)
    ensures c.Some? ==> c.value >= 0.0
  {
    if Qualifies(columns, parse) then Some(parse(columns[ConfColumn]).value) else None
  }

  /** The confidences of the qualifying rows among the first `n` of `rows`,
      in order. */
  function ConfidencesUpTo(rows: seq<seq<string>>, n: nat, parse: string -> Option<real>): (r: seq<real>)
    requires n <= |rows|
    ensures |r| <= n
    ensures NonNegatives(r)
    decreases n
  {
    if n == 0 then []
    else
      var init := ConfidencesUpTo(rows, n - 1, parse);
      match RowConfidence(rows[n - 1], parse)
      case None => init
      case Some(c) => init + [c]
  }

  /** The confidences of all qualifying rows, in order. */
  function Confidences(rows: seq<seq<string>>, parse: string -> Option<real>): (r: seq<real>)
  {
    ConfidencesUpTo(rows, |rows|, parse)
  }

  /** Every entry is at least zero. */
  predicate NonNegatives(s: seq<real>)
  {
    forall k :: 0 <= k < |s| ==> s[k] >= 0.0
  }

  function Sum(s: seq<real>): real
  {
    if |s| == 0 then 0.0 else Sum(s[..|s| - 1]) + s[|s| - 1]
  }

  lemma {:induction false} SumNonNegative(s: seq<real>)
    requires NonNegatives(s)
    ensures Sum(s) >= 0.0
    decreases |s|
  {
    if |s| > 0 {
      SumNonNegative(s[..|s| - 1]);
    }
  }

  lemma SumSnoc(s: seq<real>, x: real)
    ensures Sum(s + [x]) == Sum(s) + x
  {
    assert (s + [x])[..|s|] == s;
  }

  /** Each term is at most `bound`, so the sum is at most `|s| * bound`. */
  lemma {:induction false} SumAtMost(s: seq<real>, bound: real)
    requires forall k :: 0 <= k < |s| ==> s[k] <= bound
    ensures Sum(s) <= |s| as real * bound
    decreases |s|
  {
    if |s| > 0 {
      SumAtMost(s[..|s| - 1], bound);
    }
  }

  /** The non-empty lines of the file, as `split('\n', SkipEmptyParts)`. */
  function Lines(content: string): seq<string>
  {
    NonEmpty(Split(content, '\n'))
  }

  /** Reference value: the mean of the qualifying confidences over 100, or
      0.8 when the file is unreadable, has no data line, or no row counts. */
  function Expected(content: Option<string>, parse: string -> Option<real>): real
  {
    if content.None? then DefaultConfidence
    else
      var lines := Lines(content.value);
      if |lines| <= 1 then DefaultConfidence
      else
        var confs := Confidences(Table(lines[1..]), parse);
        SumNonNegative(confs);
        Mean(Sum(confs), |confs|)
  }

  /** The average of `count` percentages totalling `total`, scaled to 0..1;
      0.8 when there are none. */
  function Mean(total: real, count: nat): (m: real)
    requires total >= 0.0
    ensures m >= 0.0
  {
    if count == 0 then DefaultConfidence
    else
      RatioBounds(total, count as real * 100.0);
      total / (count as real * 100.0)
  }

  /** After `i` rows the loop holds the count and the sum of their
      confidences. */
  predicate Accumulated(rows: seq<seq<string>>, i: nat, parse: string -> Option<real>, total: real, count: nat)
    requires i <= |rows|
  {
    count == |ConfidencesUpTo(rows, i, parse)| && total == Sum(ConfidencesUpTo(rows, i, parse))
  }

  lemma AccumulateStep(rows: seq<seq<string>>, i: nat, parse: string -> Option<real>, total: real, count: nat)
    requires i < |rows| && Accumulated(rows, i, parse, total, count)
    ensures RowConfidence(rows[i], parse).None? ==> Accumulated(rows, i + 1, parse, total, count)
    ensures RowConfidence(rows[i], parse).Some? ==>
              Accumulated(rows, i + 1, parse, total + RowConfidence(rows[i], parse).value, count + 1)
  {
    var row := RowConfidence(rows[i], parse);
    if row.Some? {
      SumSnoc(ConfidencesUpTo(rows, i, parse), row.value);
    }
  }

  /** The row loop of `parseConfidenceFromTSV`: add up the confidences of
      the qualifying data rows and count them. */
  method Accumulate(rows: seq<seq<string>>, parse: string -> Option<real>) returns (total: real, count: nat)
    ensures count == |Confidences(rows, parse)|
    ensures total == Sum(Confidences(rows, parse))
  {
    total, count := 0.0, 0;
    var i := 0;
    while i < |rows|
      invariant 0 <= i <= |rows|
      invariant Accumulated(rows, i, parse, total, count)
    {
      AccumulateStep(rows, i, parse, total, count);
      var row := RowConfidence(rows[i], parse);
      if row.Some? {
        total := total + row.value;
        count := count + 1;
      }
      i := i + 1;
    }
  }

  /** `parseConfidenceFromTSV`: 0.8 for an unreadable file or one without a
      data line; otherwise the mean over the qualifying rows after the
      header, divided by 100, or 0.8 when none qualifies. */
  method ParseConfidence(content: Option<string>, parse: string -> Option<real>) returns (r: real)
    ensures r == Expected(content, parse)
    ensures r >= 0.0
    ensures content.None? ==> r == DefaultConfidence
  {
    if content.None? {
      return DefaultConfidence;
    }
    var lines := Lines(content.value);
    if |lines| <= 1 {
      return DefaultConfidence;
    }
    var total, count := Accumulate(Table(lines[1..]), parse);
    SumNonNegative(Confidences(Table(lines[1..]), parse));
    r := Mean(total, count);
  }

  /** Every confidence the file would contribute to the mean is at most
      100, as Tesseract reports word confidences in 0..100. */
  predicate PercentagesOnly(content: Option<string>, parse: string -> Option<real>)
  {
    content.Some? && |Lines(content.value)| > 1 ==>
      var confs := Confidences(Table(Lines(content.value)[1..]), parse);
      forall k :: 0 <= k < |confs| ==> confs[k] <= 100.0
  }

  /** When every counted confidence is at most 100, the result lies in
      [0, 1], the range `OCRResult::confidence` documents. */
  lemma ConfidenceInUnitRange(content: Option<string>, parse: string -> Option<real>)
    requires PercentagesOnly(content, parse)
    ensures 0.0 <= Expected(content, parse) <= 1.0
  {
    if content.Some? {
      var lines := Lines(content.value);
      if |lines| > 1 {
        MeanInUnitRange(Confidences(Table(lines[1..]), parse));
      }
    }
  }

  /** The mean of percentages in 0..100, scaled down, lies in [0, 1]. */
  lemma MeanInUnitRange(confs: seq<real>)
    requires forall k :: 0 <= k < |confs| ==> 0.0 <= confs[k] <= 100.0
    ensures Sum(confs) >= 0.0 && 0.0 <= Mean(Sum(confs), |confs|) <= 1.0
  {
    SumNonNegative(confs);
    if |confs| > 0 {
      SumAtMost(confs, 100.0);
      RatioBounds(Sum(confs), |confs| as real * 100.0);
    }
  }

  lemma RatioBounds(a: real, d: real)
    requires d > 0.0 && 0.0 <= a
    ensures 0.0 <= a / d
    ensures a <= d ==> a / d <= 1.0
  {
  }

  /** Every collected confidence is the parse of some row's `conf` column. */
  lemma {:induction false} ConfidenceIsParsed(rows: seq<seq<string>>, n: nat, parse: string -> Option<real>, k: nat)
    requires n <= |rows|
    requires k < |ConfidencesUpTo(rows, n, parse)|
    ensures exists j :: 0 <= j < n && |rows[j]| > ConfColumn && parse(rows[j][ConfColumn]) == Some(ConfidencesUpTo(rows, n, parse)[k])
    decreases n
  {
    var init := ConfidencesUpTo(rows, n - 1, parse);
    if k < |init| {
      ConfidenceIsParsed(rows, n - 1, parse, k);
    } else {
      assert |rows[n - 1]| > ConfColumn && parse(rows[n - 1][ConfColumn]) == Some(ConfidencesUpTo(rows, n, parse)[k]);
    }
  }

  /** No qualifying row, no confidences. */
  lemma {:induction false} NoneQualify(rows: seq<seq<string>>, n: nat, parse: string -> Option<real>)
    requires n <= |rows|
    requires forall k :: 0 <= k < n ==> RowConfidence(rows[k], parse).None?
    ensures ConfidencesUpTo(rows, n, parse) == []
    decreases n
  {
    if n > 0 {
      NoneQualify(rows, n - 1, parse);
    }
  }

  /** With no qualifying row the result is exactly 0.8, whatever the file
      holds; the fallback is not an average. */
  lemma NoWordsGivesDefault(content: string, parse: string -> Option<real>)
    requires forall k :: 1 <= k < |Lines(content)| ==> !Qualifies(Split(Lines(content)[k], '\t'), parse)
    ensures Expected(Some(content), parse) == DefaultConfidence
  {
    var lines := Lines(content);
    if |lines| > 1 {
      var rows := Table(lines[1..]);
      forall k | 0 <= k < |rows| ensures RowConfidence(rows[k], parse).None? {
        assert rows[k] == Split(lines[k + 1], '\t');
      }
      NoneQualify(rows, |rows|, parse);
    }
  }

  /** A row with only eleven columns never counts, even with a valid
      confidence: the text column must exist. */
  lemma ElevenColumnsNeverCount(columns: seq<string>, parse: string -> Option<real>)
    requires |columns| == 11
    ensures !Qualifies(columns, parse)
  {
  }
}
