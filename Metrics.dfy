/** The data-derivation step of the dashboard's `load_data`: four derived
    columns per appointment, then one summary row per specialty. */
module Metrics {
  import opened StringOrder

  // ---------------------------------------------------------------------
  // Appointments and their derived fields
  // ---------------------------------------------------------------------

  /** One row of the appointments table, with both dates already parsed to
      day numbers (consecutive calendar days differ by one). */
  datatype Appointment = Appointment(
    specialty: string,
    status: string,
    appointmentDate: int,
    scheduledDate: int)

  /** An appointment row together with the four columns `load_data` appends. */
  datatype EnrichedAppointment = EnrichedAppointment(
    appointment: Appointment,
    waitDays: int,
    within14: bool,
    noShowFlag: bool,
    cancelFlag: bool)

  const AccessWindowDays: int := 14
  const NoShow: string := "No-show"
  const CancelledByPatient: string := "Cancelled by Patient"
  const CancelledByClinic: string := "Cancelled by Clinic"

  /** Derives the four columns of one row from that row alone. The wait is
      not clamped: a scheduling date after the visit gives a negative wait. */
  function Enrich(a: Appointment): (e: EnrichedAppointment)
    ensures e.appointment == a
    ensures a.scheduledDate + e.waitDays == a.appointmentDate
    ensures e.waitDays < 0 <==> a.scheduledDate > a.appointmentDate
    ensures e.within14 <==> e.waitDays <= 14
    ensures e.noShowFlag <==> a.status == "No-show"
    ensures e.cancelFlag <==> a.status == "Cancelled by Patient" || a.status == "Cancelled by Clinic"
    ensures !(e.noShowFlag && e.cancelFlag)
  {
    var wait := a.appointmentDate - a.scheduledDate;
    EnrichedAppointment(
      a,
      wait,
      wait <= AccessWindowDays,
      a.status == NoShow,
      a.status in [CancelledByPatient, CancelledByClinic])
  }

  /** The boundary of the access window: a 14-day wait is inside it, a
      15-day wait is not. */
  lemma AccessWindowBoundary(a: Appointment)
    ensures a.appointmentDate - a.scheduledDate == 14 ==> Enrich(a).within14
    ensures a.appointmentDate - a.scheduledDate == 15 ==> !Enrich(a).within14
  {
  }

  /** A status other than the three named ones raises neither flag. */
  lemma OtherStatusUnflagged(a: Appointment)
    requires a.status !in {"No-show", "Cancelled by Patient", "Cancelled by Clinic"}
    ensures !Enrich(a).noShowFlag && !Enrich(a).cancelFlag
  {
  }

  /** The whole table, enriched column by column; as a function of the rows
      it is a row-by-row map. */
  function EnrichAll(rows: seq<Appointment>): (df: seq<EnrichedAppointment>)
    ensures |df| == |rows|
  {
    if |rows| == 0 then [] else EnrichAll(rows[..|rows| - 1]) + [Enrich(rows[|rows| - 1])]
  }

  /** Row `i` of the enriched table is the enrichment of input row `i`. */
  lemma {:induction false} EnrichAllRowwise(rows: seq<Appointment>, i: int)
    requires 0 <= i < |rows|
    ensures EnrichAll(rows)[i] == Enrich(rows[i])
  {
    if i < |rows| - 1 {
      EnrichAllRowwise(rows[..|rows| - 1], i);
    }
  }

  /** The original columns of an enriched table. */
  function Originals(df: seq<EnrichedAppointment>): seq<Appointment>
  {
    seq(|df|, i requires 0 <= i < |df| => df[i].appointment)
  }

  /** Enrichment neither drops, reorders nor alters the input rows. */
  lemma EnrichKeepsRows(rows: seq<Appointment>)
    ensures Originals(EnrichAll(rows)) == rows
  {
    var df := EnrichAll(rows);
    forall i | 0 <= i < |rows|
      ensures Originals(df)[i] == rows[i]
    {
      EnrichAllRowwise(rows, i);
    }
  }

  /** The derived columns of a row depend on nothing but that row: equal
      input rows, wherever they stand in whatever table, enrich equally. */
  lemma EnrichIsLocal(rows: seq<Appointment>, other: seq<Appointment>, i: int, j: int)
    requires 0 <= i < |rows| && 0 <= j < |other|
    requires rows[i] == other[j]
    ensures EnrichAll(rows)[i] == EnrichAll(other)[j]
  {
    EnrichAllRowwise(rows, i);
    EnrichAllRowwise(other, j);
  }

  // ---------------------------------------------------------------------
  // Statistics over one group
  // ---------------------------------------------------------------------

  /** The three boolean columns that the summary averages. */
  datatype Flag = Within14 | NoShowFlag | CancelFlag

  function Flagged(e: EnrichedAppointment, f: Flag): bool
  {
    match f
    case Within14 => e.within14
    case NoShowFlag => e.noShowFlag
    case CancelFlag => e.cancelFlag
  }

  /** The number of rows of `g` with flag `f` set. */
  function CountFlagged(g: seq<EnrichedAppointment>, f: Flag): (n: nat)
    ensures n <= |g|
  {
    if |g| == 0 then 0 else (if Flagged(g[0], f) then 1 else 0) + CountFlagged(g[1..], f)
  }

  /** The `wait_days` column of `g`. */
  function Waits(g: seq<EnrichedAppointment>): (ws: seq<int>)
    ensures |ws| == |g|
  {
    seq(|g|, i requires 0 <= i < |g| => g[i].waitDays)
  }

  function Sum(ws: seq<int>): int
  {
    if |ws| == 0 then 0 else ws[0] + Sum(ws[1..])
  }

  function MinOf(ws: seq<int>): (m: int)
    requires |ws| > 0
    ensures m in ws
    ensures forall w :: w in ws ==> m <= w
  {
    if |ws| == 1 then ws[0]
    else
      var rest := MinOf(ws[1..]);
      assert forall w :: w in ws ==> w == ws[0] || w in ws[1..];
      if ws[0] <= rest then ws[0] else rest
  }

  function MaxOf(ws: seq<int>): (m: int)
    requires |ws| > 0
    ensures m in ws
    ensures forall w :: w in ws ==> w <= m
  {
    if |ws| == 1 then ws[0]
    else
      var rest := MaxOf(ws[1..]);
      assert forall w :: w in ws ==> w == ws[0] || w in ws[1..];
      if ws[0] >= rest then ws[0] else rest
  }

  /** Arithmetic mean, exact. */
  function Mean(ws: seq<int>): real
    requires |ws| > 0
  {
    Sum(ws) as real / |ws| as real
  }

  predicate Ascending(s: seq<int>)
  {
    forall i, j :: 0 <= i < j < |s| ==> s[i] <= s[j]
  }

  function InsertAscending(x: int, s: seq<int>): (r: seq<int>)
    requires Ascending(s)
    ensures |r| == |s| + 1
    ensures r[0] == x || (|s| > 0 && r[0] == s[0])
    ensures Ascending(r)
    ensures multiset(r) == multiset(s) + multiset{x}
  {
    if |s| == 0 || x <= s[0] then [x] + s
    else
      var tail := InsertAscending(x, s[1..]);
      assert s[0] <= tail[0];
      assert s == [s[0]] + s[1..];
      [s[0]] + tail
  }

  /** A sorted copy of the values. */
  function SortAscending(s: seq<int>): (r: seq<int>)
    ensures |r| == |s|
    ensures Ascending(r)
    ensures multiset(r) == multiset(s)
  {
    if |s| == 0 then []
    else
      assert s == [s[0]] + s[1..];
      InsertAscending(s[0], SortAscending(s[1..]))
  }

  /** The middle value of an ascending sequence, or the mean of the two
      middle values when the count is even. */
  function MedianOfSorted(s: seq<int>): real
    requires |s| > 0
  {
    var n := |s|;
    if n % 2 == 1 then s[n / 2] as real
    else (s[n / 2 - 1] + s[n / 2]) as real / 2.0
  }

  /** Median, taken from a sorted copy of the values. */
  function Median(ws: seq<int>): real
    requires |ws| > 0
  {
    MedianOfSorted(SortAscending(ws))
  }

  lemma {:induction false} SumAtLeast(ws: seq<int>, lo: int)
    requires forall w :: w in ws ==> lo <= w
    ensures |ws| * lo <= Sum(ws)
  {
    if |ws| > 0 {
      assert ws[0] in ws;
      assert forall w :: w in ws[1..] ==> w in ws;
      SumAtLeast(ws[1..], lo);
      assert |ws| * lo == lo + (|ws| - 1) * lo;
    }
  }

  lemma {:induction false} SumAtMost(ws: seq<int>, hi: int)
    requires forall w :: w in ws ==> w <= hi
    ensures Sum(ws) <= |ws| * hi
  {
    if |ws| > 0 {
      assert ws[0] in ws;
      assert forall w :: w in ws[1..] ==> w in ws;
      SumAtMost(ws[1..], hi);
      assert |ws| * hi == hi + (|ws| - 1) * hi;
    }
  }

  lemma QuotientBetween(s: int, n: int, lo: int, hi: int)
    requires n > 0 && n * lo <= s <= n * hi
    ensures lo as real <= s as real / n as real <= hi as real
  {
    var q := s as real / n as real;
    assert q * n as real == s as real;
    assert (n * lo) as real == n as real * lo as real;
    assert (n * hi) as real == n as real * hi as real;
  }

  lemma MidpointBetween(a: int, b: int)
    requires a <= b
    ensures a as real <= (a + b) as real / 2.0 <= b as real
  {
  }

  /** The mean lies between the smallest and the largest value. */
  lemma MeanBounds(ws: seq<int>)
    requires |ws| > 0
    ensures MinOf(ws) as real <= Mean(ws) <= MaxOf(ws) as real
  {
    var lo, hi := MinOf(ws), MaxOf(ws);
    SumAtLeast(ws, lo);
    SumAtMost(ws, hi);
    QuotientBetween(Sum(ws), |ws|, lo, hi);
  }

  /** The median lies between the two middle values of the sorted copy
      (which coincide when the count is odd). */
  lemma MiddlesOfSorted(s: seq<int>)
    requires |s| > 0
    requires Ascending(s)
    ensures s[(|s| - 1) / 2] as real <= MedianOfSorted(s) <= s[|s| / 2] as real
  {
    var n := |s|;
    if n % 2 == 0 {
      assert (n - 1) / 2 == n / 2 - 1;
      MidpointBetween(s[n / 2 - 1], s[n / 2]);
    } else {
      assert (n - 1) / 2 == n / 2;
    }
  }

  /** In an ascending sequence, a value between the two middle elements is
      at least every element of the lower half ... */
  lemma LowerHalfAtMost(s: seq<int>, med: real)
    requires |s| > 0 && Ascending(s)
    requires s[(|s| - 1) / 2] as real <= med
    ensures forall i :: 0 <= i < |s| / 2 ==> s[i] as real <= med
  {
    var n, m := |s|, |s| / 2;
    forall i | 0 <= i < m
      ensures s[i] as real <= med
    {
      assert s[i] <= s[(n - 1) / 2];
    }
  }

  /** ... and at most every element of the upper half. */
  lemma UpperHalfAtLeast(s: seq<int>, med: real)
    requires |s| > 0 && Ascending(s)
    requires med <= s[|s| / 2] as real
    ensures forall i :: (|s| - 1) / 2 < i < |s| ==> med <= s[i] as real
  {
    var n, m := |s|, |s| / 2;
    forall i | (n - 1) / 2 < i < n
      ensures med <= s[i] as real
    {
      assert s[m] <= s[i];
    }
  }

  /** The median splits the sorted values: everything in the lower half is
      at most the median, everything in the upper half at least; and the
      sorted copy holds exactly the group's values. */
  lemma MedianSplits(ws: seq<int>)
    requires |ws| > 0
    ensures multiset(SortAscending(ws)) == multiset(ws)
    ensures forall i :: 0 <= i < |ws| / 2 ==> SortAscending(ws)[i] as real <= Median(ws)
    ensures forall i :: (|ws| - 1) / 2 < i < |ws| ==> Median(ws) <= SortAscending(ws)[i] as real
  {
    var s := SortAscending(ws);
    MiddlesOfSorted(s);
    LowerHalfAtMost(s, Median(ws));
    UpperHalfAtLeast(s, Median(ws));
  }

  /** The median lies between the smallest and the largest value. */
  lemma MedianBounds(ws: seq<int>)
    requires |ws| > 0
    ensures MinOf(ws) as real <= Median(ws) <= MaxOf(ws) as real
  {
    var s := SortAscending(ws);
    MiddlesOfSorted(s);
    var lo, hi := s[(|s| - 1) / 2], s[|s| / 2];
    SortedElementIn(ws, (|s| - 1) / 2);
    SortedElementIn(ws, |s| / 2);
    assert MinOf(ws) <= lo && hi <= MaxOf(ws);
  }

  lemma SortedElementIn(ws: seq<int>, k: int)
    requires 0 <= k < |ws|
    ensures SortAscending(ws)[k] in ws
  {
    var s := SortAscending(ws);
    assert s[k] in multiset(s);
  }

  /** Share of the rows of a non-empty group with flag `f`, as a fraction
      (the mean of a boolean column). */
  function Share(g: seq<EnrichedAppointment>, f: Flag): real
    requires |g| > 0
  {
    CountFlagged(g, f) as real / |g| as real
  }

  // ---------------------------------------------------------------------
  // Grouping by specialty
  // ---------------------------------------------------------------------

  /** One row of the summary table. */
  datatype SpecialtySummary = SpecialtySummary(
    specialty: string,
    totalAppointments: nat,
    avgWaitDays: real,
    medianWaitDays: real,
    pctWithin14: real,
    pctNoShow: real,
    pctCancelled: real)

  /** The distinct specialty labels of the table. */
  function Specialties(df: seq<EnrichedAppointment>): set<string>
  {
    set i | 0 <= i < |df| :: df[i].appointment.specialty
  }

  /** The group keys in the order pandas emits them: every distinct label
      once, ascending. Labels are compared exactly: no case folding and no
      trimming of white space. */
  function Keys(df: seq<EnrichedAppointment>): (ks: seq<string>)
    ensures StrictlyIncreasing(ks)
    ensures forall k :: k in ks <==> k in Specialties(df)
  {
    if |df| == 0 then []
    else
      var init := df[..|df| - 1];
      assert Specialties(df) == Specialties(init) + {df[|df| - 1].appointment.specialty} by {
        assert forall i :: 0 <= i < |init| ==> df[i] == init[i];
      }
      InsertKey(Keys(init), df[|df| - 1].appointment.specialty)
  }

  /** The rows whose specialty is exactly `k`, in table order. */
  function Group(df: seq<EnrichedAppointment>, k: string): (g: seq<EnrichedAppointment>)
    ensures forall e :: multiset(g)[e] == if e.appointment.specialty == k then multiset(df)[e] else 0
  {
    if |df| == 0 then []
    else
      var init := df[..|df| - 1];
      var last := df[|df| - 1];
      assert df == init + [last];
      var g := Group(init, k);
      if last.appointment.specialty == k then g + [last] else g
  }

  /** A label that occurs in the table has a non-empty group. */
  lemma GroupOfPresentKey(df: seq<EnrichedAppointment>, k: string)
    requires k in Specialties(df)
    ensures |Group(df, k)| > 0
  {
    var i :| 0 <= i < |df| && df[i].appointment.specialty == k;
    assert multiset(Group(df, k))[df[i]] > 0;
  }

  /** In a table where every row has specialty `k`, `k` is the only key
      and its group is the whole table. */
  lemma SingleSpecialty(df: seq<EnrichedAppointment>, k: string)
    requires |df| > 0
    requires forall i :: 0 <= i < |df| ==> df[i].appointment.specialty == k
    ensures Keys(df) == [k]
    ensures Group(df, k) == df
  {
    SingleSpecialtyKeys(df, k);
    SingleSpecialtyGroup(df, k);
  }

  lemma {:induction false} SingleSpecialtyKeys(df: seq<EnrichedAppointment>, k: string)
    requires |df| > 0
    requires forall i :: 0 <= i < |df| ==> df[i].appointment.specialty == k
    ensures Keys(df) == [k]
  {
    var init := df[..|df| - 1];
    if |init| > 0 {
      SingleSpecialtyKeys(init, k);
    }
  }

  lemma {:induction false} SingleSpecialtyGroup(df: seq<EnrichedAppointment>, k: string)
    requires forall i :: 0 <= i < |df| ==> df[i].appointment.specialty == k
    ensures Group(df, k) == df
  {
    if |df| > 0 {
      var init := df[..|df| - 1];
      SingleSpecialtyGroup(init, k);
      assert df == init + [df[|df| - 1]];
    }
  }

  /** The statistics of one non-empty group, flag shares still as
      fractions (what `groupby(...).agg(...)` produces). */
  function AggregateGroup(k: string, g: seq<EnrichedAppointment>): SpecialtySummary
    requires |g| > 0
  {
    SpecialtySummary(
      k,
      |g|,
      Mean(Waits(g)),
      Median(Waits(g)),
      Share(g, Within14),
      Share(g, NoShowFlag),
      Share(g, CancelFlag))
  }

  /** `df.groupby("specialty").agg(...).reset_index()`. */
  function Aggregate(df: seq<EnrichedAppointment>): (s: seq<SpecialtySummary>)
  {
    var ks := Keys(df);
    seq(|ks|, i requires 0 <= i < |ks| =>
      GroupOfPresentKey(df, ks[i]);
      AggregateGroup(ks[i], Group(df, ks[i])))
  }

  /** Entry `i` of the aggregate is the statistics row of the `i`-th key. */
  lemma AggregateAt(df: seq<EnrichedAppointment>, i: int)
    requires 0 <= i < |Keys(df)|
    ensures |Aggregate(df)| == |Keys(df)|
    ensures |Group(df, Keys(df)[i])| > 0
    ensures Aggregate(df)[i] == AggregateGroup(Keys(df)[i], Group(df, Keys(df)[i]))
  {
    GroupOfPresentKey(df, Keys(df)[i]);
  }

  /** Scales the three flag columns of one summary row by 100. */
  function ToPercent(r: SpecialtySummary): SpecialtySummary
  {
    r.(pctWithin14 := 100.0 * r.pctWithin14,
       pctNoShow := 100.0 * r.pctNoShow,
       pctCancelled := 100.0 * r.pctCancelled)
  }

  /** `summary[[...]] *= 100` over the whole table. */
  function ScaleAll(s: seq<SpecialtySummary>): seq<SpecialtySummary>
  {
    seq(|s|, i requires 0 <= i < |s| => ToPercent(s[i]))
  }

  /** The summary table `load_data` returns. */
  function Summarize(df: seq<EnrichedAppointment>): seq<SpecialtySummary>
  {
    ScaleAll(Aggregate(df))
  }

  // ---------------------------------------------------------------------
  // load_data as the source runs it
  // ---------------------------------------------------------------------

  /** Appends the four derived columns, one row at a time. */
  method EnrichRows(rows: seq<Appointment>) returns (df: seq<EnrichedAppointment>)
    ensures df == EnrichAll(rows)
  {
    df := [];
    var i := 0;
    while i < |rows|
      invariant 0 <= i <= |rows|
      invariant df == EnrichAll(rows[..i])
    {
      assert rows[..i + 1][..i] == rows[..i];
      df := df + [Enrich(rows[i])];
      i := i + 1;
    }
    assert rows[..i] == rows;
  }

  /** `summary[["pct_within_14", "pct_no_show", "pct_cancelled"]] *= 100`:
      rewrites the summary row by row. */
  method ScalePercentages(agg: seq<SpecialtySummary>) returns (summary: seq<SpecialtySummary>)
    ensures summary == ScaleAll(agg)
  {
    summary := agg;
    var j := 0;
    while j < |summary|
      invariant 0 <= j <= |summary| == |agg|
      invariant forall m :: 0 <= m < j ==> summary[m] == ToPercent(agg[m])
      invariant forall m :: j <= m < |summary| ==> summary[m] == agg[m]
    {
      summary := summary[j := ToPercent(summary[j])];
      j := j + 1;
    }
  }

  /** `load_data` once the CSV is read: the enriched table and its summary. */
  method LoadData(rows: seq<Appointment>) returns (df: seq<EnrichedAppointment>, summary: seq<SpecialtySummary>)
    ensures df == EnrichAll(rows)
    ensures summary == Summarize(df)
  {
    df := EnrichRows(rows);
    summary := ScalePercentages(Aggregate(df));
  }

  // ---------------------------------------------------------------------
  // Properties of the summary table
  // ---------------------------------------------------------------------

  /** The summary has one row per distinct specialty, ordered ascending by
      label, so no label appears twice. */
  lemma SummaryKeys(df: seq<EnrichedAppointment>)
    ensures |Summarize(df)| == |Specialties(df)|
    ensures forall i, j :: 0 <= i < j < |Summarize(df)| ==>
      Less(Summarize(df)[i].specialty, Summarize(df)[j].specialty)
    ensures forall i, j :: 0 <= i < j < |Summarize(df)| ==>
      Summarize(df)[i].specialty != Summarize(df)[j].specialty
    ensures forall k :: k in Specialties(df) <==>
      exists i :: 0 <= i < |Summarize(df)| && Summarize(df)[i].specialty == k
  {
    var ks := Keys(df);
    var s := Summarize(df);
    assert forall i :: 0 <= i < |s| ==> s[i].specialty == ks[i];
    IncreasingIsDistinct(ks);
    DistinctCardinality(ks, Specialties(df));
    forall k | k in Specialties(df)
      ensures exists i :: 0 <= i < |s| && s[i].specialty == k
    {
      var i :| 0 <= i < |ks| && ks[i] == k;
      assert s[i].specialty == k;
    }
  }

  /** A duplicate-free listing of a set has as many entries as the set. */
  lemma {:induction false} DistinctCardinality(ks: seq<string>, keys: set<string>)
    requires forall i, j :: 0 <= i < j < |ks| ==> ks[i] != ks[j]
    requires forall k :: k in ks <==> k in keys
    ensures |ks| == |keys|
  {
    if |ks| > 0 {
      var rest := ks[1..];
      assert forall k :: k in rest <==> k in keys - {ks[0]};
      DistinctCardinality(rest, keys - {ks[0]});
    }
  }

  /** Each summary row describes the group of its own label: its count is
      the group size (at least one), the averages are the group's mean and
      median wait, and each percentage is 100 times the flagged share. */
  lemma SummaryRow(df: seq<EnrichedAppointment>, i: int)
    requires 0 <= i < |Summarize(df)|
    ensures var r := Summarize(df)[i];
      var g := Group(df, r.specialty);
      && r.specialty in Specialties(df)
      && r.totalAppointments == |g| >= 1
      && r.avgWaitDays == Sum(Waits(g)) as real / |g| as real
      && r.medianWaitDays == Median(Waits(g))
  {
    var ks := Keys(df);
    AggregateAt(df, i);
    assert Summarize(df)[i] == ToPercent(AggregateGroup(ks[i], Group(df, ks[i])));
  }

  /** The percentage column of a summary row that belongs to flag `f`. */
  function Pct(r: SpecialtySummary, f: Flag): real
  {
    match f
    case Within14 => r.pctWithin14
    case NoShowFlag => r.pctNoShow
    case CancelFlag => r.pctCancelled
  }

  /** `t` out of `n`, as a percentage. */
  function Percent(t: nat, n: nat): real
    requires n > 0
  {
    100.0 * t as real / n as real
  }

  /** A part of a whole is between 0 and 100 percent of it. */
  lemma PercentBounds(t: nat, n: nat)
    requires 0 < n && t <= n
    ensures 0.0 <= Percent(t, n) <= 100.0
  {
    var p := Percent(t, n);
    assert p * n as real == 100.0 * t as real;
  }

  /** Scaling the fraction `t / n` by 100 gives the percentage. */
  lemma ScaledFraction(t: nat, n: nat)
    requires n > 0
    ensures 100.0 * (t as real / n as real) == Percent(t, n)
  {
  }

  /** Each percentage is 100 times the number of the group's rows that
      carry the flag, divided by the group size. */
  lemma SummaryPercentage(df: seq<EnrichedAppointment>, i: int, f: Flag)
    requires 0 <= i < |Summarize(df)|
    ensures var r := Summarize(df)[i];
      var g := Group(df, r.specialty);
      && |g| > 0
      && Pct(r, f) == Percent(CountFlagged(g, f), |g|)
  {
    var ks := Keys(df);
    AggregateAt(df, i);
    var g := Group(df, ks[i]);
    assert Summarize(df)[i] == ToPercent(AggregateGroup(ks[i], g));
    assert Pct(Summarize(df)[i], f) == 100.0 * Share(g, f);
    ScaledFraction(CountFlagged(g, f), |g|);
  }

  /** Each percentage column lies in [0, 100]. */
  lemma PercentageInRange(df: seq<EnrichedAppointment>, i: int, f: Flag)
    requires 0 <= i < |Summarize(df)|
    ensures 0.0 <= Pct(Summarize(df)[i], f) <= 100.0
  {
    SummaryPercentage(df, i, f);
    var g := Group(df, Summarize(df)[i].specialty);
    PercentBounds(CountFlagged(g, f), |g|);
  }

  /** The average and the median wait of a specialty lie between the
      shortest and the longest wait in its group. */
  lemma WaitStatisticsInRange(df: seq<EnrichedAppointment>, i: int)
    requires 0 <= i < |Summarize(df)|
    ensures var r := Summarize(df)[i];
      var ws := Waits(Group(df, r.specialty));
      && |ws| > 0
      && MinOf(ws) as real <= r.avgWaitDays <= MaxOf(ws) as real
      && MinOf(ws) as real <= r.medianWaitDays <= MaxOf(ws) as real
  {
    SummaryRow(df, i);
    var ws := Waits(Group(df, Summarize(df)[i].specialty));
    MeanBounds(ws);
    MedianBounds(ws);
  }

  /** Sum of the `total_appointments` column. */
  function SumTotals(s: seq<SpecialtySummary>): int
  {
    if |s| == 0 then 0 else s[0].totalAppointments + SumTotals(s[1..])
  }

  /** The group sizes over a list of keys. */
  function GroupSizes(df: seq<EnrichedAppointment>, ks: seq<string>): int
  {
    if |ks| == 0 then 0 else |Group(df, ks[0])| + GroupSizes(df, ks[1..])
  }

  /** How often `k` occurs in `ks`. */
  function Occurrences(ks: seq<string>, k: string): nat
  {
    if |ks| == 0 then 0 else (if ks[0] == k then 1 else 0) + Occurrences(ks[1..], k)
  }

  lemma {:induction false} GroupSizesEmpty(ks: seq<string>)
    ensures GroupSizes([], ks) == 0
  {
    if |ks| > 0 {
      GroupSizesEmpty(ks[1..]);
    }
  }

  lemma {:induction false} GroupSizesAppend(df: seq<EnrichedAppointment>, e: EnrichedAppointment, ks: seq<string>)
    ensures GroupSizes(df + [e], ks) == GroupSizes(df, ks) + Occurrences(ks, e.appointment.specialty)
  {
    if |ks| > 0 {
      GroupSizesAppend(df, e, ks[1..]);
      assert (df + [e])[..|df|] == df;
    }
  }

  lemma {:induction false} OccursOnce(ks: seq<string>, k: string)
    requires forall i, j :: 0 <= i < j < |ks| ==> ks[i] != ks[j]
    requires k in ks
    ensures Occurrences(ks, k) == 1
  {
    if ks[0] == k {
      OccursNot(ks[1..], k);
    } else {
      OccursOnce(ks[1..], k);
    }
  }

  lemma {:induction false} OccursNot(ks: seq<string>, k: string)
    requires k !in ks
    ensures Occurrences(ks, k) == 0
  {
    if |ks| > 0 {
      OccursNot(ks[1..], k);
    }
  }

  /** Over duplicate-free keys that cover every label, the group sizes add
      up to the number of rows: every row lands in exactly one group. */
  lemma {:induction false} GroupSizesCover(df: seq<EnrichedAppointment>, ks: seq<string>)
    requires forall i, j :: 0 <= i < j < |ks| ==> ks[i] != ks[j]
    requires forall i :: 0 <= i < |df| ==> df[i].appointment.specialty in ks
    ensures GroupSizes(df, ks) == |df|
  {
    if |df| == 0 {
      GroupSizesEmpty(ks);
    } else {
      var init, last := df[..|df| - 1], df[|df| - 1];
      assert df == init + [last];
      GroupSizesCover(init, ks);
      GroupSizesAppend(init, last, ks);
      OccursOnce(ks, last.appointment.specialty);
    }
  }

  lemma {:induction false} SumTotalsIsGroupSizes(df: seq<EnrichedAppointment>, ks: seq<string>, s: seq<SpecialtySummary>)
    requires |s| == |ks|
    requires forall i :: 0 <= i < |s| ==> s[i].totalAppointments == |Group(df, ks[i])|
    ensures SumTotals(s) == GroupSizes(df, ks)
  {
    if |s| > 0 {
      SumTotalsIsGroupSizes(df, ks[1..], s[1..]);
    }
  }

  /** The `total_appointments` column adds up to the number of appointments. */
  lemma TotalsSumToRows(df: seq<EnrichedAppointment>)
    ensures SumTotals(Summarize(df)) == |df|
  {
    var ks := Keys(df);
    var s := Summarize(df);
    forall i | 0 <= i < |s|
      ensures s[i].totalAppointments == |Group(df, ks[i])|
    {
      SummaryRow(df, i);
    }
    SumTotalsIsGroupSizes(df, ks, s);
    IncreasingIsDistinct(ks);
    forall i | 0 <= i < |df|
      ensures df[i].appointment.specialty in ks
    {
      assert df[i].appointment.specialty in Specialties(df);
    }
    GroupSizesCover(df, ks);
  }

  /** The whole pipeline on raw rows: one summary row per distinct label,
      and the counts add up to the number of input rows. */
  lemma PipelineCounts(rows: seq<Appointment>)
    ensures SumTotals(Summarize(EnrichAll(rows))) == |rows|
    ensures forall r :: r in rows ==>
      exists i :: 0 <= i < |Summarize(EnrichAll(rows))| && Summarize(EnrichAll(rows))[i].specialty == r.specialty
  {
    var df := EnrichAll(rows);
    TotalsSumToRows(df);
    SummaryKeys(df);
    forall r | r in rows
      ensures r.specialty in Specialties(df)
    {
      var i :| 0 <= i < |rows| && rows[i] == r;
      EnrichAllRowwise(rows, i);
      assert df[i].appointment.specialty == r.specialty;
    }
  }
}
