/** The keyword overview page of app/methodology/keywords/KeywordsClient.tsx:
    the search over categories and keywords, the counters above the list, the
    plain-text export, the expand/collapse rule of a category and the values
    shown on each keyword row. */
module KeywordsView {
  import opened TextOps
  import opened Sorting
  import opened Catalog
  import KeywordHits
  import Daily

  /** `s.toLowerCase().trim()`. */
  function Normalize(s: string): string
  {
    Trim(ToLower(s), JsSpace)
  }

  /** A normalised query normalises to itself. */
  lemma NormalizeIdempotent(s: string)
    ensures Normalize(Normalize(s)) == Normalize(s)
  {
    LowerTrimIdempotent(s, JsSpace);
  }

  lemma LowerTrimIdempotent(s: string, ws: set<char>)
    ensures Trim(ToLower(Trim(ToLower(s), ws)), ws) == Trim(ToLower(s), ws)
  {
    var lo, hi := TrimSlice(ToLower(s), ws);
    LowerSlice(s, lo, hi);
    TrimIdempotent(ToLower(s), ws);
  }

  /** A slice of a lower-cased string is already lower-case. */
  lemma LowerSlice(s: string, lo: nat, hi: nat)
    requires lo <= hi <= |s|
    ensures ToLower(ToLower(s)[lo..hi]) == ToLower(s)[lo..hi]
  {
    var a := ToLower(s)[lo..hi];
    forall i | 0 <= i < |a| ensures LowerChar(a[i]) == a[i] {
      LowerCharIdempotent(s[lo + i]);
    }
    ToLowerFixed(a);
  }

  // ---------------------------------------------------------------------
  // The search

  /** The category's title or key contains the normalised query. */
  predicate CatHit(nq: string, c: KeywordCat)
  {
    Contains(Normalize(c.title), nq) || Contains(Normalize(c.key), nq)
  }

  predicate ItemHit(nq: string, k: string)
  {
    Contains(Normalize(k), nq)
  }

  /** `a` is `b` with possibly fewer items, kept in their order. */
  predicate Narrowed(a: KeywordCat, b: KeywordCat)
  {
    a.key == b.key && a.title == b.title && a.desc == b.desc && IsSubsequence(a.items, b.items)
  }

  /** `r` picks some of the categories of `cats`, in their order, each one
      possibly narrowed. */
  predicate Narrows(r: seq<KeywordCat>, cats: seq<KeywordCat>)
    decreases |cats|
  {
    if r == [] then true
    else if cats == [] then false
    else (Narrowed(r[0], cats[0]) && Narrows(r[1..], cats[1..])) || Narrows(r, cats[1..])
  }

  lemma {:induction false} NarrowsRefl(cats: seq<KeywordCat>)
    ensures Narrows(cats, cats)
  {
    if cats != [] {
      SubsequenceRefl(cats[0].items);
      NarrowsRefl(cats[1..]);
    }
  }

  /** A narrowing has no more categories and no more keywords. */
  lemma {:induction false} NarrowsCounts(r: seq<KeywordCat>, cats: seq<KeywordCat>)
    requires Narrows(r, cats)
    ensures |r| <= |cats|
    ensures ItemCount(r) <= ItemCount(cats)
    decreases |cats|
  {
    if r != [] {
      if Narrowed(r[0], cats[0]) && Narrows(r[1..], cats[1..]) {
        SubsequenceLength(r[0].items, cats[0].items);
        NarrowsCounts(r[1..], cats[1..]);
      } else {
        NarrowsCounts(r, cats[1..]);
      }
    }
  }

  /** What the search keeps of one category: all of it when its title or key
      matches, otherwise the matching keywords in their order, and nothing
      when no keyword matches either. */
  /** The keyword test of the search, `k => k.toLowerCase().includes(nq)`. */
  function ItemMatcher(nq: string): string -> bool
  {
    k => ItemHit(nq, k)
  }

  function FilterCat(nq: string, c: KeywordCat): (r: Option<KeywordCat>)
    ensures CatHit(nq, c) ==> r == Some(c)
    ensures r.None? <==> !CatHit(nq, c) && forall i :: 0 <= i < |c.items| ==> !ItemHit(nq, c.items[i])
    ensures r.Some? ==> Narrowed(r.value, c)
    ensures r.Some? && !CatHit(nq, c) ==>
      && (forall x :: x in r.value.items ==> ItemHit(nq, x))
      && (forall i :: 0 <= i < |c.items| && ItemHit(nq, c.items[i]) ==> c.items[i] in r.value.items)
    ensures r.Some? && !CatHit(nq, c) ==> r.value == c.(items := Filter(c.items, ItemMatcher(nq)))
  {
    var hitItems := Filter(c.items, ItemMatcher(nq));
    if CatHit(nq, c) then
      SubsequenceRefl(c.items);
      Some(c)
    else if |hitItems| > 0 then
      assert hitItems[0] in c.items;
      Some(c.(items := hitItems))
    else None
  }

  /** The values of `f` over `s` that are present, in order:
      `s.map(f).filter(Boolean)`. */
  function KeepSome<T, U>(s: seq<T>, f: T -> Option<U>): seq<U>
  {
    if s == [] then []
    else (if f(s[0]).Some? then [f(s[0]).value] else []) + KeepSome(s[1..], f)
  }

  lemma {:induction false} KeepSomeSound<T, U>(s: seq<T>, f: T -> Option<U>)
    ensures forall y :: y in KeepSome(s, f) ==> exists i :: 0 <= i < |s| && f(s[i]) == Some(y)
  {
    if s != [] {
      KeepSomeSound(s[1..], f);
      forall y | y in KeepSome(s[1..], f) ensures exists i :: 0 <= i < |s| && f(s[i]) == Some(y) {
        var i :| 0 <= i < |s| - 1 && f(s[1..][i]) == Some(y);
        assert s[1..][i] == s[i + 1];
      }
    }
  }

  lemma {:induction false} KeepSomeComplete<T, U>(s: seq<T>, f: T -> Option<U>, j: nat)
    requires j < |s| && f(s[j]).Some?
    ensures f(s[j]).value in KeepSome(s, f)
  {
    if j > 0 {
      assert s[1..][j - 1] == s[j];
      KeepSomeComplete(s[1..], f, j - 1);
    }
  }

  lemma {:induction false} KeepSomeNarrows(cats: seq<KeywordCat>, f: KeywordCat -> Option<KeywordCat>)
    requires forall c :: f(c).Some? ==> Narrowed(f(c).value, c)
    ensures Narrows(KeepSome(cats, f), cats)
  {
    if cats != [] {
      KeepSomeNarrows(cats[1..], f);
      var rest := KeepSome(cats[1..], f);
      if f(cats[0]).Some? {
        var r := [f(cats[0]).value] + rest;
        assert r[1..] == rest;
      } else {
        assert KeepSome(cats, f) == rest;
      }
    }
  }

  function CatFilter(nq: string): KeywordCat -> Option<KeywordCat>
  {
    c => FilterCat(nq, c)
  }

  /** `cats.map(...).filter(Boolean)` for a non-empty normalised query. */
  function FilterCats(nq: string, cats: seq<KeywordCat>): seq<KeywordCat>
  {
    KeepSome(cats, CatFilter(nq))
  }

  /** The search keeps some of the categories, in catalog order, each one
      possibly narrowed. */
  lemma FilterCatsNarrows(nq: string, cats: seq<KeywordCat>)
    ensures Narrows(FilterCats(nq, cats), cats)
  {
    var f := CatFilter(nq);
    forall c ensures f(c).Some? ==> Narrowed(f(c).value, c) {
      assert f(c) == FilterCat(nq, c);
    }
    KeepSomeNarrows(cats, f);
  }

  /** Every listed category matches by title or key, or lists only
      matching keywords and at least one. */
  lemma FilterCatsSound(nq: string, cats: seq<KeywordCat>)
    ensures forall c :: c in FilterCats(nq, cats) ==>
      CatHit(nq, c) || (c.items != [] && forall x :: x in c.items ==> ItemHit(nq, x))
  {
    var f := CatFilter(nq);
    KeepSomeSound(cats, f);
    forall c | c in FilterCats(nq, cats)
      ensures CatHit(nq, c) || (c.items != [] && forall x :: x in c.items ==> ItemHit(nq, x))
    {
      var i :| 0 <= i < |cats| && f(cats[i]) == Some(c);
      assert FilterCat(nq, cats[i]) == Some(c);
    }
  }

  /** Every category the search keeps of is listed, in the form `FilterCat`
      gives it. */
  lemma FilterCatsComplete(nq: string, cats: seq<KeywordCat>, j: nat)
    requires j < |cats| && FilterCat(nq, cats[j]).Some?
    ensures FilterCat(nq, cats[j]).value in FilterCats(nq, cats)
  {
    var f := CatFilter(nq);
    assert f(cats[j]) == FilterCat(nq, cats[j]);
    KeepSomeComplete(cats, f, j);
  }

  /** The `filtered` list for the query typed in the search box. */
  function Filtered(q: string, cats: seq<KeywordCat>): (r: seq<KeywordCat>)
    ensures Normalize(q) == "" ==> r == cats
    ensures Narrows(r, cats)
  {
    var nq := Normalize(q);
    if nq == "" then
      NarrowsRefl(cats);
      cats
    else
      FilterCatsNarrows(nq, cats);
      FilterCats(nq, cats)
  }

  /** `hitWords`: the number of keywords still listed. */
  function HitWords(filtered: seq<KeywordCat>): nat
  {
    ItemCount(filtered)
  }

  /** The search never lists more categories or keywords than the catalog. */
  lemma HitWordsAtMostTotal(q: string, cats: seq<KeywordCat>)
    ensures |Filtered(q, cats)| <= |cats|
    ensures HitWords(Filtered(q, cats)) <= ItemCount(cats)
  {
    NarrowsCounts(Filtered(q, cats), cats);
  }

  /** A keyword that matches the query stays visible: its category is listed
      (under the same key) with the keyword among its items. */
  lemma MatchingKeywordListed(q: string, cats: seq<KeywordCat>, j: nat, x: string)
    requires j < |cats| && x in cats[j].items && ItemHit(Normalize(q), x)
    ensures exists c :: c in Filtered(q, cats) && c.key == cats[j].key && x in c.items
  {
    var nq := Normalize(q);
    if nq == "" {
      assert cats[j] in Filtered(q, cats);
    } else {
      var i :| 0 <= i < |cats[j].items| && cats[j].items[i] == x;
      var kept := FilterCat(nq, cats[j]);
      assert kept.Some?;
      FilterCatsComplete(nq, cats, j);
      assert kept.value.key == cats[j].key && x in kept.value.items;
    }
  }

  // ---------------------------------------------------------------------
  // The counters

  datatype Stats = Stats(totalCats: nat, totalWords: nat, totalHitDays: nat)

  /** The sum of `hitDays` over the records of `keys`, in that order. */
  function SumHitDays(hits: KeywordHits.HitsIndex, keys: seq<string>): nat
    requires forall k :: k in keys ==> k in hits
  {
    if keys == [] then 0 else hits[keys[0]].hitDays + SumHitDays(hits, keys[1..])
  }

  /** `stats`; `keys` is the order `Object.values(hits)` visits the index,
      each key once. */
  function ComputeStats(cats: seq<KeywordCat>, hits: KeywordHits.HitsIndex, keys: seq<string>): (r: Stats)
    requires forall k :: k in keys <==> k in hits
    requires Distinct(keys)
    ensures r.totalCats == |cats|
    ensures r.totalWords == |AllKeywords(cats)|
  {
    AllKeywordsLength(cats);
    Stats(|cats|, ItemCount(cats), SumHitDays(hits, keys))
  }

  /** The number of qualifying reports that mention `k`, summed over `keys`. */
  function TotalReports(keys: seq<string>, files: seq<KeywordHits.DailyFile>): nat
  {
    if keys == [] then 0 else |KeywordHits.HitDates(keys[0], files)| + TotalReports(keys[1..], files)
  }

  /** On the index of a catalog without repeated keywords, the total of hit
      days counts, for every keyword, the reports that mention it. */
  lemma TotalHitDaysCountsReports(cats: seq<KeywordCat>, files: seq<KeywordHits.DailyFile>)
    requires Distinct(AllKeywords(cats))
    ensures var kws := AllKeywords(cats);
      ComputeStats(cats, KeywordHits.BuildIndex(kws, files), kws).totalHitDays == TotalReports(kws, files)
  {
    var kws := AllKeywords(cats);
    DistinctCountsOnce(kws);
    SumOverKeys(kws, files, kws);
  }

  lemma {:induction false} SumOverKeys(kws: seq<string>, files: seq<KeywordHits.DailyFile>, keys: seq<string>)
    requires forall k :: k in keys ==> k in kws && multiset(kws)[k] == 1
    ensures forall k :: k in keys ==> k in KeywordHits.BuildIndex(kws, files)
    ensures SumHitDays(KeywordHits.BuildIndex(kws, files), keys) == TotalReports(keys, files)
  {
    if keys != [] {
      SumOverKeys(kws, files, keys[1..]);
      KeywordHits.HitDaysCountsReports(kws, files, keys[0]);
    }
  }

  lemma {:induction false} DistinctCountsOnce(s: seq<string>)
    requires Distinct(s)
    ensures forall k :: k in s ==> multiset(s)[k] == 1
  {
    if s != [] {
      DistinctCountsOnce(s[1..]);
      assert s == [s[0]] + s[1..];
      assert s[0] !in s[1..];
    }
  }

  // ---------------------------------------------------------------------
  // The text export

  /** `## title (n)`. */
  function Header(c: KeywordCat): string
  {
    "## " + c.title + " (" + NatToString(|c.items|) + ")"
  }

  /** One `- item` line per item. */
  function Bullets(items: seq<string>): (r: seq<string>)
    ensures |r| == |items|
    ensures forall i :: 0 <= i < |items| ==> r[i] == "- " + items[i]
  {
    if items == [] then [] else ["- " + items[0]] + Bullets(items[1..])
  }

  /** `textForCat`, and one block of `allText`. */
  function CatText(c: KeywordCat): string
  {
    Header(c) + "\n" + Join(Bullets(c.items), "\n")
  }

  function CatTexts(cats: seq<KeywordCat>): (r: seq<string>)
    ensures |r| == |cats|
    ensures forall i :: 0 <= i < |cats| ==> r[i] == CatText(cats[i])
  {
    if cats == [] then [] else [CatText(cats[0])] + CatTexts(cats[1..])
  }

  /** `allText`: the blocks joined by a blank line. */
  function AllText(cats: seq<KeywordCat>): string
  {
    Join(CatTexts(cats), "\n\n")
  }

  /** No line break inside a title or a keyword. */
  predicate SingleLine(c: KeywordCat)
  {
    '\n' !in c.title && forall i :: 0 <= i < |c.items| ==> '\n' !in c.items[i]
  }

  /** The lines of one block: the header, then one bullet per keyword (an
      empty line when there is none, since an empty join is ""). */
  function CatLines(c: KeywordCat): seq<string>
  {
    [Header(c)] + if c.items == [] then [""] else Bullets(c.items)
  }

  /** The lines of the whole export: the blocks with one empty line between
      two of them. */
  function ExportLines(cats: seq<KeywordCat>): seq<string>
  {
    if cats == [] then [""]
    else if |cats| == 1 then CatLines(cats[0])
    else CatLines(cats[0]) + [""] + ExportLines(cats[1..])
  }

  lemma HeaderSingleLine(c: KeywordCat)
    requires '\n' !in c.title
    ensures '\n' !in Header(c)
  {
    var digits := NatToString(|c.items|);
    assert forall i :: 0 <= i < |digits| ==> IsDigit(digits[i]);
    assert Header(c) == "## " + c.title + " (" + digits + ")";
  }

  /** `textForCat` reads back, line by line, as its header and bullets. */
  lemma CatTextLines(c: KeywordCat)
    requires SingleLine(c)
    ensures Split(CatText(c), '\n') == CatLines(c)
  {
    HeaderSingleLine(c);
    var bullets := Bullets(c.items);
    forall i | 0 <= i < |bullets| ensures '\n' !in bullets[i] {
      assert bullets[i] == "- " + c.items[i];
    }
    if c.items == [] {
      assert CatText(c) == Header(c) + ['\n'] + "";
      SplitConcat(Header(c), "", '\n');
      SplitPlain(Header(c), "", '\n');
    } else {
      assert CatText(c) == Header(c) + ['\n'] + Join(bullets, "\n");
      SplitConcat(Header(c), Join(bullets, "\n"), '\n');
      SplitPlain(Header(c), "", '\n');
      SplitJoin(bullets, '\n');
    }
  }

  /** `allText` reads back, line by line, as the blocks of the categories in
      catalog order separated by one empty line. */
  lemma {:induction false} AllTextLines(cats: seq<KeywordCat>)
    requires forall i :: 0 <= i < |cats| ==> SingleLine(cats[i])
    ensures Split(AllText(cats), '\n') == ExportLines(cats)
  {
    if |cats| == 1 {
      CatTextLines(cats[0]);
    } else if |cats| > 1 {
      var head := CatText(cats[0]);
      var rest := AllText(cats[1..]);
      AllTextCons(cats);
      AllTextLines(cats[1..]);
      CatTextLines(cats[0]);
      SplitBlankLine(head, rest, '\n');
    }
  }

  lemma AllTextCons(cats: seq<KeywordCat>)
    requires |cats| > 1
    ensures AllText(cats) == CatText(cats[0]) + ['\n'] + ("" + ['\n'] + AllText(cats[1..]))
  {
    assert CatTexts(cats)[1..] == CatTexts(cats[1..]);
  }

  /** Two strings with an empty line between them split into their lines
      with one "" between. */
  lemma SplitBlankLine(a: string, b: string, sep: char)
    ensures Split(a + [sep] + ("" + [sep] + b), sep) == Split(a, sep) + [""] + Split(b, sep)
  {
    SplitConcat(a, "" + [sep] + b, sep);
    SplitConcat("", b, sep);
  }

  /** The export of one category is that category's `textForCat`. */
  lemma AllTextOfOne(c: KeywordCat)
    ensures AllText([c]) == CatText(c)
  {
  }

  /** Appending a category appends a blank line and its block. */
  lemma AllTextSnoc(cats: seq<KeywordCat>, c: KeywordCat)
    requires cats != []
    ensures AllText(cats + [c]) == AllText(cats) + "\n\n" + CatText(c)
  {
    assert CatTexts(cats + [c]) == CatTexts(cats) + [CatText(c)];
    JoinSnoc(CatTexts(cats), CatText(c), "\n\n");
  }

  // ---------------------------------------------------------------------
  // One category panel

  /** `isOpen`: the page-wide choice when one was made, else the panel's
      own toggle. */
  function IsOpen(openAll: Option<bool>, open: bool): bool
  {
    if openAll.None? then open else openAll.value
  }

  /** A click on the header flips the panel exactly when no page-wide
      choice is in force. */
  lemma ClickFlipsUnlessForced(openAll: Option<bool>, open: bool)
    ensures IsOpen(openAll, !open) != IsOpen(openAll, open) <==> openAll.None?
  {
  }

  /** The em dash shown for a missing date. */
  const Dash: string := "\U{2014}"

  /** What one keyword row shows: the hit days, the first and last dates and
      the link target of the last date, if any. */
  datatype ItemRow = ItemRow(keyword: string, hitDays: nat, first: string, last: string, link: Option<string>)

  function DisplayRow(hits: KeywordHits.HitsIndex, k: string): (r: ItemRow)
    ensures r.keyword == k
    ensures k !in hits ==> r == ItemRow(k, 0, Dash, Dash, None)
    ensures k in hits ==> r.hitDays == hits[k].hitDays
    ensures r.link.Some? <==> k in hits && hits[k].lastSeenSlug.Some? && hits[k].lastSeenSlug.value != ""
    ensures r.link.Some? ==> r.link.value == "/daily/" + hits[k].lastSeenSlug.value
    ensures k in hits ==> r.first == (if hits[k].firstSeen.Some? then hits[k].firstSeen.value else Dash)
    ensures k in hits ==> r.last == (if hits[k].lastSeen.Some? then hits[k].lastSeen.value else Dash)
  {
    if k !in hits then ItemRow(k, 0, Dash, Dash, None)
    else
      var rec := hits[k];
      ItemRow(k, rec.hitDays,
        if rec.firstSeen.Some? then rec.firstSeen.value else Dash,
        if rec.lastSeen.Some? then rec.lastSeen.value else Dash,
        if rec.lastSeenSlug.Some? && rec.lastSeenSlug.value != "" then Some("/daily/" + rec.lastSeenSlug.value) else None)
  }

  /** On the built index a catalog keyword's row links exactly when some
      qualifying report mentions it, and the link opens the report of the
      date shown as last; without a hit both dates show the dash. */
  lemma RowLinksToLastReport(kws: seq<string>, files: seq<KeywordHits.DailyFile>, k: string)
    requires k in kws
    ensures var row := DisplayRow(KeywordHits.BuildIndex(kws, files), k);
      && (row.link.Some? <==> KeywordHits.HitDates(k, files) != [])
      && (row.link.Some? ==> row.link.value == "/daily/" + row.last)
      && (KeywordHits.HitDates(k, files) == [] ==> row.first == Dash && row.last == Dash && row.hitDays == 0)
      && (KeywordHits.HitDates(k, files) != [] ==>
            && row.first in KeywordHits.HitDates(k, files) && row.last in KeywordHits.HitDates(k, files)
            && forall d :: d in KeywordHits.HitDates(k, files) ==> LexLe(row.first, d) && LexLe(d, row.last))
  {
    KeywordHits.IndexRecord(kws, files, k);
    var rec := KeywordHits.BuildIndex(kws, files)[k];
    var dates := KeywordHits.HitDates(k, files);
    if dates != [] {
      assert rec.lastSeen.value in dates;
    }
  }

  /** A report saved as `<date>.mdx` counts in the index and a keyword it
      mentions links to `/daily/<date>`, but the report page reads only
      `<date>.md`, so in a directory holding just that file the link opens a
      page that fails to load. */
  lemma MdxReportLinksToMissingPage(d: string, text: string, kws: seq<string>, k: string, dir: seq<Daily.DailySource>)
    requires KeywordHits.IsDateShape(d)
    requires k in kws && Contains(KeywordHits.Normalize(text), KeywordHits.Normalize(k))
    requires Daily.Names(dir) == [d + ".mdx"]
    ensures var files := [KeywordHits.DailyFile(d + ".mdx", text)];
      && KeywordHits.Qualifies(d + ".mdx")
      && DisplayRow(KeywordHits.BuildIndex(kws, files), k).link == Some("/daily/" + d)
      && Daily.DailyMeta(Some(dir), d).None?
  {
    var name := d + ".mdx";
    var files := [KeywordHits.DailyFile(name, text)];
    assert name[|name| - 4..] == ".mdx";
    KeywordHits.SlugOfSuffixedName(d, ".mdx");
    assert files[..0] == [];
    assert KeywordHits.HitDates(k, files) == [d];
    RowLinksToLastReport(kws, files, k);
    assert d + ".md" != name by {
      assert |d + ".md"| != |name|;
    }
  }
}
