/** The daily reports of lib/daily.ts: slugs from the file names of the daily
    directory, the list with its title and date defaults in newest-first
    order, the latest report, and the metadata of one report. The directory
    is given as its listing, each entry with the front matter of its file
    (absent when the directory does not exist). */
module Daily {
  import opened TextOps
  import opened Sorting

  /** The `title` and `date` fields of a report's front matter, when set. */
  datatype FrontMatter = FrontMatter(title: Option<string>, date: Option<string>)

  datatype DailySource = DailySource(name: string, front: FrontMatter)

  datatype DailyItem = DailyItem(slug: string, title: string, date: string)

  /** The prefix of the default title. */
  const TitlePrefix: string := "台股事件雷達｜"

  function Names(dir: seq<DailySource>): (r: seq<string>)
    ensures |r| == |dir|
    ensures forall i :: 0 <= i < |dir| ==> r[i] == dir[i].name
  {
    if dir == [] then [] else [dir[0].name] + Names(dir[1..])
  }

  /** `getDailySlugs()`: the names ending in `.md` (exactly, in that case),
      with the suffix removed, in listing order; none when there is no
      directory. */
  function DailySlugs(dir: Option<seq<DailySource>>): (r: seq<string>)
    ensures dir.None? ==> r == []
  {
    if dir.None? then [] else SlugsOf(Names(dir.value))
  }

  function SlugsOf(names: seq<string>): (r: seq<string>)
    ensures |r| <= |names|
    ensures forall s :: s in r <==> s + ".md" in names
  {
    if names == [] then []
    else
      var rest := SlugsOf(names[1..]);
      var f := names[0];
      assert forall s :: s + ".md" in names <==> s + ".md" == f || s + ".md" in names[1..];
      if EndsWith(f, ".md") then
        var slug := f[..|f| - 3];
        assert slug + ".md" == f;
        assert forall s :: s + ".md" == f ==> s == slug by {
          forall s | s + ".md" == f ensures s == slug {
            assert s == (s + ".md")[..|s|];
          }
        }
        [slug] + rest
      else
        assert forall s :: s + ".md" != f by {
          forall s ensures s + ".md" != f {
            assert EndsWith(s + ".md", ".md") by {
              assert (s + ".md")[|s|..] == ".md";
            }
          }
        }
        rest
  }

  /** A `.mdx` report is not listed here, although the keyword index reads
      it; nor is a `.MD` one. */
  lemma OnlyLowerMdListed()
    ensures DailySlugs(Some([DailySource("2026-02-03.mdx", FrontMatter(None, None)),
                             DailySource("2026-02-04.MD", FrontMatter(None, None)),
                             DailySource("2026-02-05.md", FrontMatter(None, None))])) == ["2026-02-05"]
  {
    var dir := [DailySource("2026-02-03.mdx", FrontMatter(None, None)),
                DailySource("2026-02-04.MD", FrontMatter(None, None)),
                DailySource("2026-02-05.md", FrontMatter(None, None))];
    var names := ["2026-02-03.mdx", "2026-02-04.MD", "2026-02-05.md"];
    assert Names(dir) == names;
    assert !EndsWith(names[0], ".md") by { assert names[0][11] == 'm'; }
    assert !EndsWith(names[1], ".md") by { assert names[1][12] == 'D'; }
    OnlyLastListed(names[0], names[1], names[2]);
    assert names[2][..|names[2]| - 3] == "2026-02-05";
  }

  lemma OnlyLastListed(a: string, b: string, c: string)
    requires !EndsWith(a, ".md") && !EndsWith(b, ".md") && EndsWith(c, ".md")
    ensures SlugsOf([a, b, c]) == [c[..|c| - 3]]
  {
    SlugsOfCons(a, [b, c]);
    SlugsOfCons(b, [c]);
    SlugsOfCons(c, []);
    assert [a, b, c] == [a] + [b, c] && [b, c] == [b] + [c] && [c] == [c] + [];
  }

  lemma SlugsOfCons(f: string, rest: seq<string>)
    ensures SlugsOf([f] + rest) == (if EndsWith(f, ".md") then [f[..|f| - 3]] else []) + SlugsOf(rest)
  {
    assert ([f] + rest)[1..] == rest;
  }

  /** The list entry (and the metadata) of a report: the front matter's
      title and date, defaulting to the prefixed slug and to the slug. */
  function Entry(slug: string, front: FrontMatter): (r: DailyItem)
    ensures r.slug == slug
    ensures front.title.None? ==> r.title == TitlePrefix + slug
    ensures front.title.Some? ==> r.title == front.title.value
    ensures front.date.None? ==> r.date == slug
    ensures front.date.Some? ==> r.date == front.date.value
  {
    DailyItem(slug,
      if front.title.Some? then front.title.value else TitlePrefix + slug,
      if front.date.Some? then front.date.value else slug)
  }

  /** The entries of the `.md` reports, in listing order, before sorting. */
  function Entries(dir: seq<DailySource>): (r: seq<DailyItem>)
    ensures |r| <= |dir|
  {
    if dir == [] then []
    else
      var f := dir[0].name;
      if EndsWith(f, ".md") then [Entry(f[..|f| - 3], dir[0].front)] + Entries(dir[1..])
      else Entries(dir[1..])
  }

  function EntrySlugs(items: seq<DailyItem>): (r: seq<string>)
    ensures |r| == |items|
    ensures forall i :: 0 <= i < |items| ==> r[i] == items[i].slug
  {
    if items == [] then [] else [items[0].slug] + EntrySlugs(items[1..])
  }

  /** There is one entry per slug, in the same order. */
  lemma {:induction false} OneEntryPerSlug(dir: seq<DailySource>)
    ensures EntrySlugs(Entries(dir)) == SlugsOf(Names(dir))
  {
    if dir != [] {
      OneEntryPerSlug(dir[1..]);
      assert Names(dir)[1..] == Names(dir[1..]);
    }
  }

  /** The comparator `a.date < b.date ? 1 : -1`. */
  predicate NewerFirst(a: DailyItem, b: DailyItem)
  {
    !LexLess(a.date, b.date)
  }

  lemma NewerFirstIsTotalPreorder()
    ensures Total(NewerFirst) && Transitive(NewerFirst)
  {
    forall a: DailyItem, b: DailyItem ensures NewerFirst(a, b) || NewerFirst(b, a) {
      if LexLess(a.date, b.date) {
        LexAsymmetric(a.date, b.date);
      }
    }
    forall a: DailyItem, b: DailyItem, c: DailyItem | NewerFirst(a, b) && NewerFirst(b, c)
      ensures NewerFirst(a, c)
    {
      LexLeTotalOrder();
      assert LexLe(b.date, a.date) && LexLe(c.date, b.date);
    }
  }

  /** What `getDailyList()` returns. */
  function DailyList(dir: Option<seq<DailySource>>): seq<DailyItem>
  {
    if dir.None? then [] else InsertionSort(Entries(dir.value), NewerFirst)
  }

  /** `getDailyList()`: builds the entries into an array and sorts it. */
  method GetDailyList(dir: Option<seq<DailySource>>) returns (items: seq<DailyItem>)
    ensures items == DailyList(dir)
  {
    if dir.None? {
      return [];
    }
    items := SortedCopy(Entries(dir.value), NewerFirst);
  }

  /** The list holds the entries, one per slug, and its dates never
      increase. */
  lemma DailyListNewestFirst(dir: Option<seq<DailySource>>)
    ensures dir.Some? ==> multiset(DailyList(dir)) == multiset(Entries(dir.value))
    ensures dir.Some? ==> EntrySlugs(Entries(dir.value)) == DailySlugs(dir)
    ensures |DailyList(dir)| == |DailySlugs(dir)|
    ensures var s := DailyList(dir);
      forall i, j :: 0 <= i < j < |s| ==> LexLe(s[j].date, s[i].date)
  {
    if dir.Some? {
      var entries := Entries(dir.value);
      SortIsPermutation(entries, NewerFirst);
      NewerFirstIsTotalPreorder();
      SortIsSorted(entries, NewerFirst);
      OneEntryPerSlug(dir.value);
    }
  }

  /** `getLatestDaily()`: the first entry of the list, or null. */
  function LatestDaily(dir: Option<seq<DailySource>>): (r: Option<DailyItem>)
    ensures r.None? <==> DailyList(dir) == []
    ensures r.Some? ==> r.value == DailyList(dir)[0]
  {
    var list := DailyList(dir);
    if |list| == 0 then None else Some(list[0])
  }

  /** The latest report is null exactly when no `.md` report is listed;
      otherwise it is one of the entries and no entry has a later date. */
  lemma LatestIsNewest(dir: Option<seq<DailySource>>)
    ensures LatestDaily(dir).None? <==> DailySlugs(dir) == []
    ensures LatestDaily(dir).Some? ==>
      dir.Some? && LatestDaily(dir).value in Entries(dir.value) &&
      forall e :: e in Entries(dir.value) ==> LexLe(e.date, LatestDaily(dir).value.date)
  {
    DailyListNewestFirst(dir);
    if dir.Some? {
      var entries := Entries(dir.value);
      var list := DailyList(dir);
      SortIsPermutation(entries, NewerFirst);
      OneEntryPerSlug(dir.value);
      if list != [] {
        assert list[0] in multiset(entries);
        forall e | e in entries ensures LexLe(e.date, list[0].date) {
          assert e in multiset(list);
          var j :| 0 <= j < |list| && list[j] == e;
          if j > 0 {
            assert LexLe(list[j].date, list[0].date);
          } else {
            LexLeTotalOrder();
          }
        }
      }
    }
  }

  /** The metadata part of `getDailyHtml(slug)`: read from the file
      `slug.md`, which fails when there is no such file. */
  function DailyMeta(dir: Option<seq<DailySource>>, slug: string): (r: Option<DailyItem>)
    ensures r.None? <==> dir.None? || slug + ".md" !in Names(dir.value)
  {
    if dir.None? then None else MetaIn(dir.value, slug)
  }

  function MetaIn(dir: seq<DailySource>, slug: string): (r: Option<DailyItem>)
    ensures r.None? <==> slug + ".md" !in Names(dir)
    ensures r.Some? ==> exists i :: 0 <= i < |dir| && dir[i].name == slug + ".md" && r.value == Entry(slug, dir[i].front)
  {
    if dir == [] then None
    else if dir[0].name == slug + ".md" then Some(Entry(slug, dir[0].front))
    else
      assert Names(dir)[1..] == Names(dir[1..]);
      var r := MetaIn(dir[1..], slug);
      assert forall i :: 1 <= i < |dir| ==> dir[i] == dir[1..][i - 1];
      r
  }

  /** With distinct file names the page of a listed report shows the title
      and date of its list entry. */
  lemma {:induction false} MetaMatchesList(dir: seq<DailySource>, e: DailyItem)
    requires Distinct(Names(dir))
    requires e in Entries(dir)
    ensures MetaIn(dir, e.slug) == Some(e)
  {
    var f := dir[0].name;
    assert Names(dir)[1..] == Names(dir[1..]);
    assert Distinct(Names(dir[1..])) by {
      forall i, j | 0 <= i < j < |dir| - 1 ensures Names(dir[1..])[i] != Names(dir[1..])[j] {
        assert Names(dir)[i + 1] != Names(dir)[j + 1];
      }
    }
    if EndsWith(f, ".md") && e == Entry(f[..|f| - 3], dir[0].front) {
      assert e.slug + ".md" == f;
    } else {
      assert e in Entries(dir[1..]);
      MetaMatchesList(dir[1..], e);
      EntryNamed(dir[1..], e);
      forall j | 0 <= j < |dir| - 1 ensures Names(dir[1..])[j] != f {
        assert Names(dir)[0] != Names(dir)[j + 1];
      }
      assert e.slug + ".md" != f;
    }
  }

  /** Every entry comes from a file named after its slug. */
  lemma {:induction false} EntryNamed(dir: seq<DailySource>, e: DailyItem)
    requires e in Entries(dir)
    ensures e.slug + ".md" in Names(dir)
  {
    var f := dir[0].name;
    assert Names(dir)[1..] == Names(dir[1..]);
    if EndsWith(f, ".md") && e == Entry(f[..|f| - 3], dir[0].front) {
      assert e.slug + ".md" == f;
    } else {
      EntryNamed(dir[1..], e);
    }
  }
}
