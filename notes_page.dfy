/** The research view of app/page.tsx: the notes ordered by weight and then
    by date, the high-weight selection, and the weight badge. */
module NotesPage {
  import opened TextOps
  import opened Sorting
  import opened Notes

  /** `HIGH_WEIGHT`. */
  const HighWeight: real := 0.8

  /** `wa` is greater than `wb`, a missing weight counting as -Infinity. */
  predicate Heavier(wa: Option<real>, wb: Option<real>)
  {
    wa.Some? && (wb.None? || wa.value > wb.value)
  }

  /** The comparator of `sorted`: a heavier note goes first; between equal
      weights the comparator `a.date < b.date ? 1 : -1` decides. */
  predicate ResearchBefore(a: Note, b: Note)
  {
    if a.weight != b.weight then Heavier(a.weight, b.weight) else !LexLess(a.date, b.date)
  }

  lemma ResearchBeforeIsTotalPreorder()
    ensures Total(ResearchBefore) && Transitive(ResearchBefore)
  {
    forall a: Note, b: Note ensures ResearchBefore(a, b) || ResearchBefore(b, a) {
      if a.weight == b.weight && LexLess(a.date, b.date) {
        LexAsymmetric(a.date, b.date);
      }
    }
    forall a: Note, b: Note, c: Note | ResearchBefore(a, b) && ResearchBefore(b, c)
      ensures ResearchBefore(a, c)
    {
      if a.weight == b.weight == c.weight {
        LexLeTotalOrder();
        assert LexLe(b.date, a.date) && LexLe(c.date, b.date);
      }
    }
  }

  /** `sorted`: a sorted copy of the listed notes. */
  function Sorted(notes: seq<Note>): seq<Note>
  {
    InsertionSort(notes, ResearchBefore)
  }

  /** The weight as `(n.weight ?? 0)` reads it. */
  function WeightOrZero(n: Note): real
  {
    if n.weight.Some? then n.weight.value else 0.0
  }

  predicate IsHigh(n: Note)
  {
    WeightOrZero(n) >= HighWeight
  }

  /** `highPriority`. */
  function HighPriority(sorted: seq<Note>): seq<Note>
  {
    Filter(sorted, IsHigh)
  }

  /** `sorted` holds the same notes; weights never increase along it, notes
      without a weight come after every weighted note, and among equal
      weights dates never increase. */
  lemma SortedByWeightThenDate(notes: seq<Note>)
    ensures multiset(Sorted(notes)) == multiset(notes)
    ensures |Sorted(notes)| == |notes|
    ensures var s := Sorted(notes);
      forall i, j :: 0 <= i < j < |s| ==>
        && !Heavier(s[j].weight, s[i].weight)
        && (s[i].weight.None? ==> s[j].weight.None?)
        && (s[i].weight == s[j].weight ==> LexLe(s[j].date, s[i].date))
  {
    SortIsPermutation(notes, ResearchBefore);
    ResearchBeforeIsTotalPreorder();
    SortIsSorted(notes, ResearchBefore);
    var s := Sorted(notes);
    forall i, j | 0 <= i < j < |s|
      ensures !Heavier(s[j].weight, s[i].weight) && (s[i].weight.None? ==> s[j].weight.None?)
    {
      assert ResearchBefore(s[i], s[j]);
    }
  }

  /** `highPriority` is exactly the notes of `sorted` whose weight (missing
      as 0) reaches 0.8, in sorted order; and since `sorted` puts them first,
      it is the front of `sorted`. */
  lemma HighPriorityIsFrontOfSorted(notes: seq<Note>)
    ensures var s := Sorted(notes);
      var hp := HighPriority(s);
      && (forall i :: 0 <= i < |s| ==> (s[i] in hp <==> IsHigh(s[i])))
      && hp == s[..|hp|]
  {
    var s := Sorted(notes);
    SortedByWeightThenDate(notes);
    forall i, j | 0 <= i < j < |s| && IsHigh(s[j]) ensures IsHigh(s[i]) {
      assert !Heavier(s[j].weight, s[i].weight);
    }
    FilterOfFrontIsPrefix(s, IsHigh);
    assert |HighPriority(s)| <= |s|;
  }

  /** What `WeightBadge` renders: the weight, red when high. */
  datatype Badge = Badge(red: bool, weight: real)

  function WeightBadge(w: Option<real>): (r: Option<Badge>)
    ensures r.None? <==> w.None?
    ensures r.Some? ==> r.value.weight == w.value && (r.value.red <==> w.value >= HighWeight)
  {
    if w.None? then None else Some(Badge(w.value >= HighWeight, w.value))
  }

  /** A listed note is in the high-weight view exactly when its badge is
      red; a note without a weight has no badge and is never there. */
  lemma HighPriorityIffRedBadge(notes: seq<Note>, n: Note)
    requires n in Sorted(notes)
    ensures var badge := WeightBadge(n.weight);
      n in HighPriority(Sorted(notes)) <==> badge.Some? && badge.value.red
  {
  }

  /** On the shipped notes the 0.8 note leads and is the only high one. */
  lemma ShippedResearchOrder()
    ensures Sorted(GetAllNotes()) == [EventContinuity, BbuHvdc]
    ensures HighPriority(Sorted(GetAllNotes())) == [EventContinuity]
  {
    ShippedNotesNewestFirst();
    assert Sorted([EventContinuity, BbuHvdc]) == [EventContinuity, BbuHvdc] by {
      assert [EventContinuity, BbuHvdc][..1] == [EventContinuity];
      assert InsertionSort([EventContinuity], ResearchBefore) == [EventContinuity];
    }
  }
}
