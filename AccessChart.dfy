/** The data behind the "Access Goal (14 Days)" bar chart: the summary
    table re-ordered by the share of patients seen within 14 days, highest
    first. */
module AccessChart {
  import opened StringOrder
  import opened Metrics

  /** Non-increasing in the within-14-days percentage. */
  predicate ByPctWithin14Descending(s: seq<SpecialtySummary>)
  {
    forall i, j :: 0 <= i < j < |s| ==> s[i].pctWithin14 >= s[j].pctWithin14
  }

  function InsertByPct(r: SpecialtySummary, s: seq<SpecialtySummary>): (t: seq<SpecialtySummary>)
    requires ByPctWithin14Descending(s)
    ensures |t| == |s| + 1
    ensures t[0] == r || (|s| > 0 && t[0] == s[0])
    ensures ByPctWithin14Descending(t)
    ensures multiset(t) == multiset(s) + multiset{r}
  {
    if |s| == 0 || r.pctWithin14 >= s[0].pctWithin14 then [r] + s
    else
      var tail := InsertByPct(r, s[1..]);
      assert s[0].pctWithin14 >= tail[0].pctWithin14;
      assert s == [s[0]] + s[1..];
      [s[0]] + tail
  }

  /** `summary_table.sort_values("pct_within_14", ascending=False)`: the
      same rows, highest percentage first. */
  function ChartData(summary: seq<SpecialtySummary>): (c: seq<SpecialtySummary>)
    ensures |c| == |summary|
    ensures ByPctWithin14Descending(c)
    ensures multiset(c) == multiset(summary)
  {
    if |summary| == 0 then []
    else
      assert summary == [summary[0]] + summary[1..];
      InsertByPct(summary[0], ChartData(summary[1..]))
  }

  /** The chart shows each specialty of the table exactly once, each with
      its own summary row. */
  lemma ChartShowsEachSpecialtyOnce(df: seq<EnrichedAppointment>)
    ensures var c := ChartData(Summarize(df));
      && |c| == |Specialties(df)|
      && (forall i, j :: 0 <= i < j < |c| ==> c[i].specialty != c[j].specialty)
      && (forall r :: r in c <==> r in Summarize(df))
  {
    var s := Summarize(df);
    var c := ChartData(s);
    SummaryKeys(df);
    assert forall r :: r in c <==> r in s by {
      assert forall r :: r in c <==> r in multiset(s);
    }
    PermutationKeepsKeysDistinct(s, c);
  }

  predicate KeysDistinct(s: seq<SpecialtySummary>)
  {
    forall i, j :: 0 <= i < j < |s| ==> s[i].specialty != s[j].specialty
  }

  lemma {:induction false} OccursAtMostOnce(s: seq<SpecialtySummary>, x: SpecialtySummary)
    requires KeysDistinct(s)
    ensures multiset(s)[x] <= 1
  {
    if |s| > 0 {
      assert s == [s[0]] + s[1..];
      OccursAtMostOnce(s[1..], x);
      if s[0] == x {
        assert x !in s[1..];
      }
    }
  }

  lemma PermutationKeepsKeysDistinct(s: seq<SpecialtySummary>, c: seq<SpecialtySummary>)
    requires KeysDistinct(s)
    requires multiset(c) == multiset(s)
    ensures KeysDistinct(c)
  {
    forall i, j | 0 <= i < j < |c|
      ensures c[i].specialty != c[j].specialty
    {
      if c[i].specialty == c[j].specialty {
        assert c[i] in multiset(s) && c[j] in multiset(s);
        var p :| 0 <= p < |s| && s[p] == c[i];
        var q :| 0 <= q < |s| && s[q] == c[j];
        assert p == q;
        var before, middle, after := c[..i], c[i + 1..j], c[j + 1..];
        assert c == before + [c[i]] + middle + [c[j]] + after;
        assert multiset(c)[c[i]] >= 2;
        OccursAtMostOnce(s, c[i]);
        assert false;
      }
    }
  }
}
