/** The keyword hit index of lib/keywords/hits.ts: for every catalog keyword,
    on how many daily reports it appears, the first and last report dates, and
    the slug of the last report. The daily directory is given as a sequence of
    (file name, file text) pairs in the order the directory listing returns. */
module KeywordHits {
  import opened TextOps
  import opened Catalog

  datatype KeywordHit = KeywordHit(
    keyword: string,
    hitDays: nat,
    firstSeen: Option<string>,
    lastSeen: Option<string>,
    lastSeenSlug: Option<string>)

  type HitsIndex = map<string, KeywordHit>

  datatype DailyFile = DailyFile(name: string, text: string)

  function Normalize(s: string): string
  {
    ToLower(s)
  }

  /** `s` ends with `suffix` up to ASCII case (`suffix` is lower-case). */
  predicate EndsWithIgnoringCase(s: string, suffix: string)
  {
    |suffix| <= |s| && ToLower(s[|s| - |suffix|..]) == suffix
  }

  /** `file.replace(/\.mdx?$/i, "")`. */
  function SlugFromFilename(file: string): string
  {
    if EndsWithIgnoringCase(file, ".mdx") then file[..|file| - 4]
    else if EndsWithIgnoringCase(file, ".md") then file[..|file| - 3]
    else file
  }

  /** The slug is the name with one `.md` or `.mdx` suffix (in any case)
      removed, and the whole name when it has no such suffix. */
  lemma SlugStripsOneSuffix(file: string)
    ensures var slug := SlugFromFilename(file);
      && StartsWith(file, slug)
      && (slug == file <==> !(EndsWithIgnoringCase(file, ".md") || EndsWithIgnoringCase(file, ".mdx")))
      && (slug != file ==> ToLower(file[|slug|..]) == ".md" || ToLower(file[|slug|..]) == ".mdx")
  {
    if EndsWithIgnoringCase(file, ".mdx") {
      assert |SlugFromFilename(file)| == |file| - 4;
    } else if EndsWithIgnoringCase(file, ".md") {
      assert |SlugFromFilename(file)| == |file| - 3;
    }
  }

  /** Appending a markdown suffix, in any case, and taking the slug gives the
      name back; only that one suffix is removed. */
  lemma SlugOfSuffixedName(name: string, suffix: string)
    requires ToLower(suffix) == ".md" || ToLower(suffix) == ".mdx"
    ensures SlugFromFilename(name + suffix) == name
  {
    var file := name + suffix;
    assert file[|file| - |suffix|..] == suffix;
    if ToLower(suffix) == ".md" {
      if |file| >= 4 {
        assert ToLower(file[|file| - 4..])[3] == LowerChar(suffix[2]);
      }
    }
    assert file[..|name|] == name;
  }

  /** `/^(\d{4}-\d{2}-\d{2})$/`: ten characters, digits with dashes at
      positions 4 and 7; months and days are not range-checked. */
  predicate IsDateShape(s: string)
  {
    |s| == 10 &&
    forall i :: 0 <= i < 10 ==> if i == 4 || i == 7 then s[i] == '-' else IsDigit(s[i])
  }

  /** `dateFromSlug`: the slug itself when it has the date shape. */
  function DateFromSlug(slug: string): (r: Option<string>)
    ensures r.Some? <==> IsDateShape(slug)
    ensures r.Some? ==> r.value == slug && |r.value| == 10
  {
    if IsDateShape(slug) then Some(slug) else None
  }

  /** A file contributes to the index: it ends in `.md` or `.mdx` exactly
      (this check is case-sensitive) and its slug is a date. */
  predicate Qualifies(name: string)
  {
    (EndsWith(name, ".md") || EndsWith(name, ".mdx")) && DateFromSlug(SlugFromFilename(name)).Some?
  }

  /** The record every catalog keyword starts with. */
  function InitialIndex(kws: seq<string>): (r: HitsIndex)
    ensures r.Keys == set k | k in kws
    ensures forall k :: k in r ==> r[k] == KeywordHit(k, 0, None, None, None)
  {
    map k | k in kws :: KeywordHit(k, 0, None, None, None)
  }

  /** One hit of a keyword on the report of `date`: `hitDays += 1`, and the
      date replaces a missing (or empty) first date when earlier and a missing
      (or empty) last date when later, together with the slug. */
  function Touch(rec: KeywordHit, slug: string, date: string): KeywordHit
  {
    var first :=
      if rec.firstSeen.None? || rec.firstSeen.value == "" || LexLess(date, rec.firstSeen.value)
      then Some(date) else rec.firstSeen;
    var moveLast := rec.lastSeen.None? || rec.lastSeen.value == "" || LexLess(rec.lastSeen.value, date);
    rec.(hitDays := rec.hitDays + 1,
         firstSeen := first,
         lastSeen := if moveLast then Some(date) else rec.lastSeen,
         lastSeenSlug := if moveLast then Some(slug) else rec.lastSeenSlug)
  }

  /** The inner loop over the keywords for one report whose normalised text
      is `text`. */
  function ApplyFile(h: HitsIndex, kws: seq<string>, slug: string, date: string, text: string): (r: HitsIndex)
    requires forall k :: k in kws ==> k in h
    ensures r.Keys == h.Keys
  {
    if kws == [] then h
    else
      var prev := ApplyFile(h, kws[..|kws| - 1], slug, date, text);
      var kw := kws[|kws| - 1];
      if Contains(text, Normalize(kw)) then prev[kw := Touch(prev[kw], slug, date)] else prev
  }

  /** The index after the first `|files|` directory entries. Its keys are
      exactly the keywords: no file adds or removes one. */
  function BuildIndex(kws: seq<string>, files: seq<DailyFile>): (r: HitsIndex)
    ensures r.Keys == set k | k in kws
  {
    if files == [] then InitialIndex(kws)
    else
      var prev := BuildIndex(kws, files[..|files| - 1]);
      var name := files[|files| - 1].name;
      if Qualifies(name) then
        var slug := SlugFromFilename(name);
        ApplyFile(prev, kws, slug, DateFromSlug(slug).value, Normalize(files[|files| - 1].text))
      else prev
  }

  /** `buildKeywordHits`, with the directory read replaced by `files`. */
  method BuildKeywordHits(cats: seq<KeywordCat>, files: seq<DailyFile>) returns (hits: HitsIndex)
    ensures hits == BuildIndex(AllKeywords(cats), files)
    ensures hits.Keys == set k | k in AllKeywords(cats)
  {
    var allKeywords := AllKeywords(cats);
    hits := InitialIndex(allKeywords);
    var i := 0;
    while i < |files|
      invariant 0 <= i <= |files|
      invariant hits == BuildIndex(allKeywords, files[..i])
    {
      var file := files[i];
      BuildIndexStep(allKeywords, files, i);
      i := i + 1;
      if !EndsWith(file.name, ".md") && !EndsWith(file.name, ".mdx") {
        continue;
      }
      var slug := SlugFromFilename(file.name);
      var date := DateFromSlug(slug);
      if date.None? {
        continue;
      }
      var text := Normalize(file.text);
      hits := ApplyKeywords(hits, allKeywords, slug, date.value, text);
    }
    assert files[..i] == files;
  }

  /** The loop over the keywords for one report whose normalised text is
      `text`: each keyword found in it has its record touched. */
  method ApplyKeywords(start: HitsIndex, kws: seq<string>, slug: string, date: string, text: string)
    returns (hits: HitsIndex)
    requires forall k :: k in kws ==> k in start
    ensures hits == ApplyFile(start, kws, slug, date, text)
  {
    hits := start;
    var j := 0;
    while j < |kws|
      invariant 0 <= j <= |kws|
      invariant hits == ApplyFile(start, kws[..j], slug, date, text)
    {
      var kw := kws[j];
      ApplyFileStep(start, kws, j, slug, date, text);
      j := j + 1;
      if !Contains(text, Normalize(kw)) {
        continue;
      }
      var rec := hits[kw];
      ghost var was := rec;
      rec := rec.(hitDays := rec.hitDays + 1);
      if rec.firstSeen.None? || rec.firstSeen.value == "" || LexLess(date, rec.firstSeen.value) {
        rec := rec.(firstSeen := Some(date));
      }
      if rec.lastSeen.None? || rec.lastSeen.value == "" || LexLess(rec.lastSeen.value, date) {
        rec := rec.(lastSeen := Some(date), lastSeenSlug := Some(slug));
      }
      assert rec == Touch(was, slug, date);
      hits := hits[kw := rec];
    }
    assert kws[..j] == kws;
  }

  lemma BuildIndexStep(kws: seq<string>, files: seq<DailyFile>, i: nat)
    requires i < |files|
    ensures BuildIndex(kws, files[..i + 1])
         == var prev := BuildIndex(kws, files[..i]);
            var name := files[i].name;
            if Qualifies(name) then
              var slug := SlugFromFilename(name);
              ApplyFile(prev, kws, slug, DateFromSlug(slug).value, Normalize(files[i].text))
            else prev
  {
    assert files[..i + 1][..i] == files[..i];
  }

  lemma ApplyFileStep(h: HitsIndex, kws: seq<string>, j: nat, slug: string, date: string, text: string)
    requires j < |kws|
    requires forall k :: k in kws ==> k in h
    ensures forall k :: k in kws[..j] ==> k in h
    ensures ApplyFile(h, kws[..j + 1], slug, date, text)
         == var prev := ApplyFile(h, kws[..j], slug, date, text);
            if Contains(text, Normalize(kws[j])) then prev[kws[j] := Touch(prev[kws[j]], slug, date)] else prev
  {
    assert kws[..j + 1][..j] == kws[..j];
  }

  // ---------------------------------------------------------------------
  // What a record says, in closed form

  /** The dates of the qualifying reports, in directory order, whose text
      contains the keyword (both lower-cased). */
  function HitDates(k: string, files: seq<DailyFile>): seq<string>
  {
    if files == [] then []
    else
      var prev := HitDates(k, files[..|files| - 1]);
      var f := files[|files| - 1];
      if Qualifies(f.name) && Contains(Normalize(f.text), Normalize(k))
      then prev + [SlugFromFilename(f.name)]
      else prev
  }

  /** `rec` is the record of `k` after `days` hits on the reports of `dates`:
      first and last dates are present exactly when some report hit, are the
      least and the greatest of those dates, and the slug is the last date. */
  ghost predicate Summarizes(rec: KeywordHit, k: string, days: int, dates: seq<string>)
  {
    && rec.keyword == k
    && rec.hitDays == days
    && (rec.firstSeen.Some? <==> dates != [])
    && (rec.lastSeen.Some? <==> dates != [])
    && rec.lastSeenSlug == rec.lastSeen
    && (forall d :: d in dates ==> d != "")
    && (dates != [] ==>
          && rec.firstSeen.value in dates && rec.lastSeen.value in dates
          && forall d :: d in dates ==> LexLe(rec.firstSeen.value, d) && LexLe(d, rec.lastSeen.value))
  }

  /** A hit on a new date extends the summary by that date. */
  lemma TouchNewDate(rec: KeywordHit, k: string, days: int, dates: seq<string>, date: string)
    requires Summarizes(rec, k, days, dates) && date != ""
    ensures Summarizes(Touch(rec, date, date), k, days + 1, dates + [date])
  {
    LexLeTotalOrder();
    LexIrreflexive(date);
    if dates != [] {
      LexTotal(date, rec.firstSeen.value);
      LexTotal(date, rec.lastSeen.value);
    }
  }

  /** A further hit on a date already counted changes only `hitDays`. */
  lemma TouchKnownDate(rec: KeywordHit, k: string, days: int, dates: seq<string>, date: string)
    requires Summarizes(rec, k, days, dates) && date in dates
    ensures Summarizes(Touch(rec, date, date), k, days + 1, dates)
  {
    LexIrreflexive(date);
    LexLeTotalOrder();
  }

  function TouchTimes(rec: KeywordHit, n: nat, slug: string, date: string): KeywordHit
  {
    if n == 0 then rec else Touch(TouchTimes(rec, n - 1, slug, date), slug, date)
  }

  lemma {:induction false} TouchTimesSummarizes(rec: KeywordHit, k: string, days: int, dates: seq<string>, n: nat, date: string)
    requires Summarizes(rec, k, days, dates) && date != "" && n >= 1
    ensures Summarizes(TouchTimes(rec, n, date, date), k, days + n, dates + [date])
  {
    if n == 1 {
      TouchNewDate(rec, k, days, dates, date);
    } else {
      TouchTimesSummarizes(rec, k, days, dates, n - 1, date);
      TouchKnownDate(TouchTimes(rec, n - 1, date, date), k, days + n - 1, dates + [date], date);
    }
  }

  /** One report touches the record of `k` once per occurrence of `k` in the
      keyword list when its text contains `k`, and leaves it alone otherwise. */
  lemma {:induction false} ApplyFileRecord(h: HitsIndex, kws: seq<string>, slug: string, date: string, text: string, k: string)
    requires forall x :: x in kws ==> x in h
    requires k in h
    ensures ApplyFile(h, kws, slug, date, text)[k]
         == if Contains(text, Normalize(k)) then TouchTimes(h[k], multiset(kws)[k], slug, date) else h[k]
  {
    if kws != [] {
      var init := kws[..|kws| - 1];
      ApplyFileRecord(h, init, slug, date, text, k);
      assert kws == init + [kws[|kws| - 1]];
    }
  }

  /** The closed form of every record of the index. */
  lemma {:induction false} IndexRecord(kws: seq<string>, files: seq<DailyFile>, k: string)
    requires k in kws
    ensures k in BuildIndex(kws, files)
    ensures Summarizes(BuildIndex(kws, files)[k], k, multiset(kws)[k] * |HitDates(k, files)|, HitDates(k, files))
  {
    if files == [] {
    } else {
      var init := files[..|files| - 1];
      IndexRecord(kws, init, k);
      IndexRecordStep(kws, files, k);
    }
  }

  lemma IndexRecordStep(kws: seq<string>, files: seq<DailyFile>, k: string)
    requires k in kws && files != []
    requires var init := files[..|files| - 1];
      Summarizes(BuildIndex(kws, init)[k], k, multiset(kws)[k] * |HitDates(k, init)|, HitDates(k, init))
    ensures Summarizes(BuildIndex(kws, files)[k], k, multiset(kws)[k] * |HitDates(k, files)|, HitDates(k, files))
  {
    var init := files[..|files| - 1];
    var f := files[|files| - 1];
    var prev := BuildIndex(kws, init);
    var dates := HitDates(k, init);
    var c := multiset(kws)[k];
    var hit := Qualifies(f.name) && Contains(Normalize(f.text), Normalize(k));
    var slug := SlugFromFilename(f.name);
    HitDatesStep(k, files);
    BuildRecordStep(kws, files, k);
    var rec := BuildIndex(kws, files)[k];
    if hit {
      assert k in multiset(kws);
      assert |slug| == 10;
      TouchTimesAddsDate(prev[k], rec, k, c, dates, slug);
      assert |HitDates(k, files)| == |dates| + 1;
    } else {
      assert rec == prev[k];
    }
  }

  lemma TouchTimesAddsDate(prevRec: KeywordHit, rec: KeywordHit, k: string, c: nat, dates: seq<string>, slug: string)
    requires Summarizes(prevRec, k, c * |dates|, dates)
    requires rec == TouchTimes(prevRec, c, slug, slug) && c >= 1 && slug != ""
    ensures Summarizes(rec, k, c * (|dates| + 1), dates + [slug])
  {
    TouchTimesSummarizes(prevRec, k, c * |dates|, dates, c, slug);
    MulSucc(c, |dates|);
  }

  lemma HitDatesStep(k: string, files: seq<DailyFile>)
    requires files != []
    ensures var f := files[|files| - 1];
      var dates := HitDates(k, files[..|files| - 1]);
      HitDates(k, files)
        == if Qualifies(f.name) && Contains(Normalize(f.text), Normalize(k))
           then dates + [SlugFromFilename(f.name)] else dates
  {
  }

  lemma MulSucc(c: nat, n: nat)
    ensures c * n + c == c * (n + 1)
  {
  }

  lemma BuildRecordStep(kws: seq<string>, files: seq<DailyFile>, k: string)
    requires k in kws && files != []
    ensures var prev := BuildIndex(kws, files[..|files| - 1]);
      var f := files[|files| - 1];
      BuildIndex(kws, files)[k]
        == if Qualifies(f.name) && Contains(Normalize(f.text), Normalize(k))
           then TouchTimes(prev[k], multiset(kws)[k], SlugFromFilename(f.name), SlugFromFilename(f.name))
           else prev[k]
  {
    var prev := BuildIndex(kws, files[..|files| - 1]);
    var f := files[|files| - 1];
    if Qualifies(f.name) {
      var slug := SlugFromFilename(f.name);
      ApplyFileRecord(prev, kws, slug, slug, Normalize(f.text), k);
    }
  }

  /** For a keyword listed once, `hitDays` is the number of qualifying reports
      whose text contains it; `firstSeen <= lastSeen` once it has a hit, and
      the link slug is the last date. */
  lemma HitDaysCountsReports(kws: seq<string>, files: seq<DailyFile>, k: string)
    requires multiset(kws)[k] == 1
    ensures k in BuildIndex(kws, files)
    ensures var rec := BuildIndex(kws, files)[k];
      && rec.hitDays == |HitDates(k, files)|
      && (rec.hitDays > 0 <==> rec.firstSeen.Some?)
      && (rec.hitDays > 0 ==> rec.lastSeen.Some? && LexLe(rec.firstSeen.value, rec.lastSeen.value))
      && rec.lastSeenSlug == rec.lastSeen
  {
    assert k in multiset(kws);
    IndexRecord(kws, files, k);
  }

  /** A directory entry that does not end in `.md`/`.mdx`, or whose slug is
      not a date, changes no record. */
  lemma {:induction false} SkippedFileChangesNothing(kws: seq<string>, files: seq<DailyFile>, f: DailyFile)
    requires !Qualifies(f.name)
    ensures BuildIndex(kws, files + [f]) == BuildIndex(kws, files)
  {
    assert (files + [f])[..|files|] == files;
  }
}
