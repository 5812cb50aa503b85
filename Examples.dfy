/** Worked cases of the derivation, on concrete rows. */
module Examples {
  import opened Metrics

  /** Day numbers of 2024-01-01 and 2024-01-20 (proleptic Gregorian
      ordinals, day 1 being 0001-01-01). */
  const Jan1st2024: int := 738886
  const Jan20th2024: int := 738905

  /** A no-show booked on 1 January for 20 January waited 19 days: outside
      the 14-day window, flagged as a no-show and not as a cancellation. */
  lemma NoShowAfterNineteenDays()
    ensures var e := Enrich(Appointment("Cardiology", "No-show", Jan20th2024, Jan1st2024));
      e.waitDays == 19 && !e.within14 && e.noShowFlag && !e.cancelFlag
  {
  }

  /** Three completed Cardiology visits, after 10, 20 and 30 days. */
  const CardiologyRows: seq<Appointment> := [
    Appointment("Cardiology", "Completed", 10, 0),
    Appointment("Cardiology", "Completed", 20, 0),
    Appointment("Cardiology", "Completed", 30, 0)]

  function Completed(wait: int): EnrichedAppointment
  {
    EnrichedAppointment(Appointment("Cardiology", "Completed", wait, 0), wait, wait <= 14, false, false)
  }

  lemma CardiologyEnriched()
    ensures EnrichAll(CardiologyRows) == [Completed(10), Completed(20), Completed(30)]
  {
    EnrichAllRowwise(CardiologyRows, 0);
    EnrichAllRowwise(CardiologyRows, 1);
    EnrichAllRowwise(CardiologyRows, 2);
  }

  lemma CardiologyMean()
    ensures Mean(Waits([Completed(10), Completed(20), Completed(30)])) == 20.0
  {
    CardiologyWaits();
    var ws := [10, 20, 30];
    assert ws[1..] == [20, 30] && ws[1..][1..] == [30] && ws[1..][1..][1..] == [];
    assert Sum(ws) == 60;
  }

  lemma SortedWaits()
    ensures SortAscending([10, 20, 30]) == [10, 20, 30]
  {
    assert [10, 20, 30][1..] == [20, 30] && [20, 30][1..] == [30] && [30][1..] == [];
    assert SortAscending([30]) == [30];
    assert InsertAscending(20, [30]) == [20, 30];
    assert SortAscending([20, 30]) == [20, 30];
    assert InsertAscending(10, [20, 30]) == [10, 20, 30];
  }

  lemma CardiologyWaits()
    ensures Waits([Completed(10), Completed(20), Completed(30)]) == [10, 20, 30]
  {
  }

  lemma MedianOfWaits()
    ensures Median([10, 20, 30]) == 20.0
  {
    SortedWaits();
  }

  /** An even number of waits: the median is the mean of the two middle
      values of the sorted copy, here 1 and 4. */
  lemma EvenCountMedian()
    ensures Median([4, 1]) == 2.5
  {
    assert [4, 1][1..] == [1] && [1][1..] == [];
    assert SortAscending([1]) == [1];
    assert SortAscending([4, 1]) == InsertAscending(4, [1]) == [1, 4];
  }

  lemma CardiologyMedian()
    ensures Median(Waits([Completed(10), Completed(20), Completed(30)])) == 20.0
  {
    CardiologyWaits();
    MedianOfWaits();
  }

  lemma CardiologyFlags()
    ensures var g := [Completed(10), Completed(20), Completed(30)];
      && CountFlagged(g, Within14) == 1
      && CountFlagged(g, NoShowFlag) == 0
      && CountFlagged(g, CancelFlag) == 0
  {
    var g := [Completed(10), Completed(20), Completed(30)];
    assert g[1..] == [Completed(20), Completed(30)] && g[1..][1..] == [Completed(30)];
  }

  lemma CardiologyRow()
    ensures ToPercent(AggregateGroup("Cardiology", [Completed(10), Completed(20), Completed(30)]))
      == SpecialtySummary("Cardiology", 3, 20.0, 20.0, 100.0 / 3.0, 0.0, 0.0)
  {
    CardiologyMean();
    CardiologyMedian();
    CardiologyFlags();
  }

  lemma CardiologyAggregated()
    ensures var df := [Completed(10), Completed(20), Completed(30)];
      Aggregate(df) == [AggregateGroup("Cardiology", df)]
  {
    var df := [Completed(10), Completed(20), Completed(30)];
    SingleSpecialty(df, "Cardiology");
    AggregateAt(df, 0);
  }

  /** The three visits give one summary row: 3 visits, mean and median 20
      days, a third of them within 14 days, no no-shows, no cancellations. */
  lemma CardiologySummary()
    ensures Summarize(EnrichAll(CardiologyRows))
      == [SpecialtySummary("Cardiology", 3, 20.0, 20.0, 100.0 / 3.0, 0.0, 0.0)]
  {
    var df := [Completed(10), Completed(20), Completed(30)];
    CardiologyEnriched();
    CardiologyAggregated();
    CardiologyRow();
    assert Summarize(df) == [ToPercent(AggregateGroup("Cardiology", df))];
  }
}
