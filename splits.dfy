/**
 * The chronological train/test split of one dated series: sort by date,
 * keep everything up to the training end date for training and everything
 * from the test start date for testing, and drop missing values from both.
 */
module Splits {
  import opened Wrappers
  import Seqs

  /** A day as a proleptic Gregorian ordinal (0001-01-01 is day 1). */
  type Date = int

  /** One observation of the series: its date and its value, None when missing. */
  datatype Entry = Entry(date: Date, value: Option<real>)

  /** The two inclusive bounds. */
  datatype Splitter = Splitter(trainEnd: Date, testStart: Date)

  /** 2023-12-31 and 2024-01-01. */
  const DefaultSplitter := Splitter(738885, 738886)

  function DateKey(e: Entry): real
  {
    e.date as real
  }

  predicate InTrain(sp: Splitter, e: Entry)
  {
    e.date <= sp.trainEnd && e.value.Some?
  }

  predicate InTest(sp: Splitter, e: Entry)
  {
    sp.testStart <= e.date && e.value.Some?
  }

  function TrainRow(sp: Splitter): Entry -> bool
  {
    e => InTrain(sp, e)
  }

  function TestRow(sp: Splitter): Entry -> bool
  {
    e => InTest(sp, e)
  }

  /** `split`: the training part and the test part of the date-sorted series. */
  function Split(sp: Splitter, s: seq<Entry>): (parts: (seq<Entry>, seq<Entry>))
    ensures |parts.0| <= |s| && |parts.1| <= |s|
    ensures forall i :: 0 <= i < |parts.0| ==> InTrain(sp, parts.0[i])
    ensures forall i :: 0 <= i < |parts.1| ==> InTest(sp, parts.1[i])
  {
    var sorted := Seqs.SortBy(s, DateKey);
    (Seqs.Filter(sorted, TrainRow(sp)), Seqs.Filter(sorted, TestRow(sp)))
  }

  /** Both parts are in date order, hold no missing value, and respect their bound. */
  lemma SplitShape(sp: Splitter, s: seq<Entry>)
    ensures var (train, test) := Split(sp, s);
            && Seqs.SortedBy(train, DateKey) && Seqs.SortedBy(test, DateKey)
            && (forall i :: 0 <= i < |train| ==> train[i].value.Some? && train[i].date <= sp.trainEnd)
            && (forall i :: 0 <= i < |test| ==> test[i].value.Some? && sp.testStart <= test[i].date)
  {
    var sorted := Seqs.SortBy(s, DateKey);
    Seqs.FilterSorted(sorted, TrainRow(sp), DateKey);
    Seqs.FilterSorted(sorted, TestRow(sp), DateKey);
  }

  /** Nothing is lost or duplicated: each part holds every qualifying observation of the input as
      many times as the input does, and nothing else. */
  lemma SplitCounts(sp: Splitter, s: seq<Entry>, e: Entry)
    ensures multiset(Split(sp, s).0)[e] == if InTrain(sp, e) then multiset(s)[e] else 0
    ensures multiset(Split(sp, s).1)[e] == if InTest(sp, e) then multiset(s)[e] else 0
  {
    var sorted := Seqs.SortBy(s, DateKey);
    Seqs.FilterMultiset(sorted, TrainRow(sp), e);
    Seqs.FilterMultiset(sorted, TestRow(sp), e);
  }

  lemma SplitMember(sp: Splitter, s: seq<Entry>, e: Entry)
    ensures e in Split(sp, s).0 <==> e in s && InTrain(sp, e)
    ensures e in Split(sp, s).1 <==> e in s && InTest(sp, e)
  {
    SplitCounts(sp, s, e);
    assert e in Split(sp, s).0 <==> multiset(Split(sp, s).0)[e] > 0;
    assert e in Split(sp, s).1 <==> multiset(Split(sp, s).1)[e] > 0;
  }

  /** With the training end before the test start, every training observation precedes every test
      observation, and observations dated strictly between the two bounds are in neither part. */
  lemma SplitChronological(sp: Splitter, s: seq<Entry>)
    requires sp.trainEnd < sp.testStart
    ensures var (train, test) := Split(sp, s);
            && (forall i, j :: 0 <= i < |train| && 0 <= j < |test| ==> train[i].date < test[j].date)
            && (forall e :: e in s && sp.trainEnd < e.date < sp.testStart ==> e !in train && e !in test)
  {
    SplitShape(sp, s);
    var (train, test) := Split(sp, s);
    forall e | e in s && sp.trainEnd < e.date < sp.testStart ensures e !in train && e !in test {
      SplitMember(sp, s, e);
    }
  }

  /** The bounds are not checked against each other: when the test start is not after the training
      end, an observation dated between them lands in both parts. */
  lemma SplitOverlap(sp: Splitter, s: seq<Entry>, e: Entry)
    requires e in s && e.value.Some? && sp.testStart <= e.date <= sp.trainEnd
    ensures e in Split(sp, s).0 && e in Split(sp, s).1
  {
    SplitMember(sp, s, e);
  }

  /** The default bounds are consecutive days, so every present observation lands in exactly one
      part and every missing one in neither. */
  lemma DefaultPartition(s: seq<Entry>, e: Entry)
    requires e in s
    ensures var (train, test) := Split(DefaultSplitter, s);
            && (e.value.Some? ==> (e in train) != (e in test))
            && (e.value.None? ==> e !in train && e !in test)
  {
    SplitMember(DefaultSplitter, s, e);
  }
}
