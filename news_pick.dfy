/** The spreadsheet cells and the representative-news selection of
    scripts/export_daily_md.py (`_safe` and `_pick_representative_news`).
    A sheet row is a map from column name to cell; a cell is `Blank` (an
    empty cell pandas reads as NaN) or holds the text Python's `str()` gives
    of its value. An empty cell of a date column is NaT, whose text is "NaT".
    pandas' number and date parsing are given as functions. */
module NewsPick {
  import opened TextOps
  import opened Sorting

  datatype Cell = Blank | Text(s: string)

  type Row = map<string, Cell>

  /** `to_numeric` and `to_datetime` with `errors="coerce"`: `None` where
      pandas gives NaN or NaT. */
  datatype Parsers = Parsers(number: string -> Option<real>, time: string -> Option<int>)

  /** `row.get(col)`. */
  function Get(row: Row, col: string): Option<Cell>
  {
    if col in row then Some(row[col]) else None
  }

  /** `_safe(v)`: "" for `None`, else `str(v).strip()`; a NaN cell's `str` is
      "nan". */
  function Safe(v: Option<Cell>): (r: string)
    ensures v.None? ==> r == ""
    ensures v == Some(Blank) ==> r == "nan"
    ensures v.Some? && v.value.Text? ==> r == Trim(v.value.s, PySpace)
  {
    match v
    case None => ""
    case Some(Blank) => "nan"
    case Some(Text(s)) => Trim(s, PySpace)
  }

  /** `_safe` of its own result gives it back. */
  lemma SafeIdempotent(v: Option<Cell>)
    ensures Safe(Some(Text(Safe(v)))) == Safe(v)
  {
    match v
    case None =>
      TrimOfClean("", PySpace);
    case Some(Blank) =>
      var w := "nan";
      assert w[0] == 'n' && w[2] == 'n';
      TrimOfClean(w, PySpace);
    case Some(Text(s)) =>
      TrimIdempotent(s, PySpace);
  }

  // ---------------------------------------------------------------------
  // Selection

  /** A column of the news sheet after the missing ones are added as "". */
  function Field(row: Row, col: string): Cell
  {
    if col in row then row[col] else Text("")
  }

  /** `.fillna("").astype(str)`. */
  function AsText(c: Cell): string
  {
    if c.Blank? then "" else c.s
  }

  /** `x in [p.strip() for p in s.split(",")] if s else False`. */
  predicate InCommaList(s: string, x: string)
  {
    var parts := Split(s, ',');
    s != "" && exists i :: 0 <= i < |parts| && Trim(parts[i], PySpace) == x
  }

  /** The row names the company and the event type. */
  predicate Matches(row: Row, eventName: string, company: string)
  {
    InCommaList(AsText(Field(row, "提及公司")), company)
    && InCommaList(AsText(Field(row, "事件類型")), eventName)
  }

  /** `CONF_RANK` looked up with `.map(...).fillna(0)`. */
  function ConfRank(c: Cell): (r: nat)
    ensures r <= 3
    ensures r == 3 <==> c == Text("高")
    ensures r == 2 <==> c == Text("中")
    ensures r == 1 <==> c == Text("低")
  {
    var s := AsText(c);
    if s == "高" then 3 else if s == "中" then 2 else if s == "低" then 1 else 0
  }

  /** A matching row with its sort keys. */
  datatype Ranked = Ranked(row: Row, conf: nat, mon: real, theme: real, dt: Option<int>, link: Cell)

  function NumberOrZero(c: Cell, p: Parsers): real
  {
    if c.Text? && p.number(c.s).Some? then p.number(c.s).value else 0.0
  }

  function TimeOf(c: Cell, p: Parsers): Option<int>
  {
    if c.Text? then p.time(c.s) else None
  }

  function RankRow(row: Row, p: Parsers): Ranked
  {
    Ranked(row, ConfRank(Field(row, "信心等級")), NumberOrZero(Field(row, "監控分數"), p),
      NumberOrZero(Field(row, "主題分數"), p), TimeOf(Field(row, "發布時間"), p), Field(row, "連結"))
  }

  function RankAll(rows: seq<Row>, p: Parsers): (r: seq<Ranked>)
    ensures |r| == |rows|
    ensures forall i :: 0 <= i < |rows| ==> r[i] == RankRow(rows[i], p)
  {
    if rows == [] then [] else [RankRow(rows[0], p)] + RankAll(rows[1..], p)
  }

  /** The matching rows, in sheet order. */
  function Matching(news: seq<Row>, eventName: string, company: string): (r: seq<Row>)
    ensures IsSubsequence(r, news)
    ensures forall x :: x in r ==> x in news && Matches(x, eventName, company)
    ensures forall i :: 0 <= i < |news| && Matches(news[i], eventName, company) ==> news[i] in r
  {
    var r := Filter(news, row => Matches(row, eventName, company));
    assert forall x :: x in r ==> exists i :: 0 <= i < |r| && r[i] == x;
    r
  }

  /** The descending sort on (confidence, monitor score, theme score,
      publish time); an unparsed time sorts last, as pandas puts NaT. */
  predicate NewsBefore(a: Ranked, b: Ranked)
  {
    if a.conf != b.conf then a.conf > b.conf
    else if a.mon != b.mon then a.mon > b.mon
    else if a.theme != b.theme then a.theme > b.theme
    else if a.dt.None? then b.dt.None?
    else b.dt.None? || a.dt.value >= b.dt.value
  }

  lemma NewsBeforeIsTotalPreorder()
    ensures Total(NewsBefore) && Transitive(NewsBefore)
  {
  }

  /** `drop_duplicates(subset=["連結"], keep="first")`, with the links in
      `seen` already taken. */
  function DedupeFrom(rs: seq<Ranked>, seen: set<Cell>): (r: seq<Ranked>)
    ensures IsSubsequence(r, rs)
    ensures forall i :: 0 <= i < |r| ==> r[i].link !in seen
    ensures forall i, j :: 0 <= i < j < |r| ==> r[i].link != r[j].link
    ensures forall j :: 0 <= j < |rs| && rs[j].link !in seen ==> rs[j].link in Links(r)
  {
    if rs == [] then []
    else
      assert forall j :: 1 <= j < |rs| ==> rs[j] == rs[1..][j - 1];
      if rs[0].link in seen then DedupeFrom(rs[1..], seen)
      else
        var rest := DedupeFrom(rs[1..], seen + {rs[0].link});
        var r := [rs[0]] + rest;
        assert r[1..] == rest;
        r
  }

  function Links(rs: seq<Ranked>): set<Cell>
  {
    if rs == [] then {} else {rs[0].link} + Links(rs[1..])
  }

  /** A link is among `Links(rs)` exactly when some row of `rs` has it. */
  lemma {:induction false} LinksMembers(rs: seq<Ranked>, l: Cell)
    ensures l in Links(rs) <==> exists i :: 0 <= i < |rs| && rs[i].link == l
  {
    if rs != [] {
      LinksMembers(rs[1..], l);
      if l in Links(rs[1..]) {
        var i :| 0 <= i < |rs[1..]| && rs[1..][i].link == l;
        assert rs[i + 1].link == l;
      }
      if exists i :: 0 <= i < |rs| && rs[i].link == l {
        var i :| 0 <= i < |rs| && rs[i].link == l;
        if i > 0 {
          assert rs[1..][i - 1].link == l;
        }
      }
    }
  }

  /** `keep="first"`: a kept row comes no later than any row with its link,
      so it is the first row of the input with that link. */
  lemma {:induction false} DedupeKeepsFirst(rs: seq<Ranked>, seen: set<Cell>)
    ensures forall a, j :: a in DedupeFrom(rs, seen) && 0 <= j < |rs| && rs[j].link == a.link ==> a in rs[..j + 1]
  {
    if rs != [] {
      var tail := rs[1..];
      var seen' := if rs[0].link in seen then seen else seen + {rs[0].link};
      DedupeKeepsFirst(tail, seen');
      forall a, j | a in DedupeFrom(rs, seen) && 0 <= j < |rs| && rs[j].link == a.link
        ensures a in rs[..j + 1]
      {
        if a != rs[0] || rs[0].link in seen {
          assert a in DedupeFrom(tail, seen');
          assert a.link !in seen';
          assert j > 0;
          assert tail[j - 1] == rs[j];
          assert tail[..j] == rs[1..j + 1];
        }
      }
    }
  }

  function Dedupe(rs: seq<Ranked>): seq<Ranked>
  {
    DedupeFrom(rs, {})
  }

  /** `df.head(n)`: the first `n` rows, or all but the last `-n` when `n` is
      negative. */
  function Head<T>(s: seq<T>, n: int): (r: seq<T>)
    ensures n >= 0 ==> |r| == if n < |s| then n else |s|
    ensures |r| <= |s| && r == s[..|r|]
  {
    if n >= 0 then (if n < |s| then s[..n] else s)
    else if |s| + n > 0 then s[..|s| + n] else []
  }

  /** What `_pick_representative_news` returns. */
  function PickSpec(news: seq<Row>, eventName: string, company: string, topn: int, p: Parsers): seq<Ranked>
  {
    Head(Dedupe(InsertionSort(RankAll(Matching(news, eventName, company), p), NewsBefore)), topn)
  }

  /** `_pick_representative_news(df_news, event_name, company, topn)`: keeps
      the matching rows, sorts them in place, drops repeated links and keeps
      the first `topn`. */
  method PickRepresentativeNews(news: seq<Row>, eventName: string, company: string, topn: int, p: Parsers)
    returns (rep: seq<Ranked>)
    ensures rep == PickSpec(news, eventName, company, topn, p)
  {
    if |news| == 0 {
      NothingToPick(news, eventName, company, topn, p);
      return [];
    }
    var matching := Matching(news, eventName, company);
    if |matching| == 0 {
      NothingToPick(news, eventName, company, topn, p);
      return [];
    }
    var ranked := RankAll(matching, p);
    var sorted := SortedCopy(ranked, NewsBefore);
    rep := Head(Dedupe(sorted), topn);
  }

  /** No news, or no matching row, gives an empty pick. */
  lemma NothingToPick(news: seq<Row>, eventName: string, company: string, topn: int, p: Parsers)
    requires news == [] || Matching(news, eventName, company) == []
    ensures PickSpec(news, eventName, company, topn, p) == []
  {
    assert Matching(news, eventName, company) == [];
    assert RankAll([], p) == [];
  }

  /** Every picked row names both the company and the event type, exactly,
      as one of its comma-separated entries; so an empty field never
      matches. */
  lemma PickedRowsMatch(news: seq<Row>, eventName: string, company: string, topn: int, p: Parsers)
    ensures forall r :: r in PickSpec(news, eventName, company, topn, p) ==>
      r.row in news && Matches(r.row, eventName, company)
      && AsText(Field(r.row, "提及公司")) != "" && AsText(Field(r.row, "事件類型")) != ""
  {
    var m := Matching(news, eventName, company);
    var ranked := RankAll(m, p);
    var sorted := InsertionSort(ranked, NewsBefore);
    var deduped := Dedupe(sorted);
    var rep := Head(deduped, topn);
    SortIsPermutation(ranked, NewsBefore);
    SubsequenceMembers(deduped, sorted);
    RankedRows(m, p);
    forall r | r in rep ensures r.row in m {
      assert r in deduped;
      assert r in multiset(ranked);
    }
  }

  /** Every ranked row comes from the rows ranked. */
  lemma RankedRows(rows: seq<Row>, p: Parsers)
    ensures forall r :: r in RankAll(rows, p) ==> r.row in rows
  {
    var ranked := RankAll(rows, p);
    forall r | r in ranked ensures r.row in rows {
      var i :| 0 <= i < |ranked| && ranked[i] == r;
    }
  }

  lemma {:induction false} SubsequenceMembers<T>(sub: seq<T>, s: seq<T>)
    requires IsSubsequence(sub, s)
    ensures forall x :: x in sub ==> x in s
  {
    if sub != [] && s != [] {
      if sub[0] == s[0] {
        SubsequenceMembers(sub[1..], s[1..]);
        assert sub == [sub[0]] + sub[1..];
        assert s == [s[0]] + s[1..];
      } else {
        SubsequenceMembers(sub, s[1..]);
      }
    }
  }

  /** The picked rows have distinct links, at most `topn` of them, in the
      order of the sort. */
  lemma PickedRowsDistinctAndSorted(news: seq<Row>, eventName: string, company: string, topn: int, p: Parsers)
    ensures var rep := PickSpec(news, eventName, company, topn, p);
      && (forall i, j :: 0 <= i < j < |rep| ==> rep[i].link != rep[j].link)
      && (topn >= 0 ==> |rep| <= topn)
      && SortedBy(rep, NewsBefore)
  {
    var ranked := RankAll(Matching(news, eventName, company), p);
    var sorted := InsertionSort(ranked, NewsBefore);
    NewsBeforeIsTotalPreorder();
    SortIsSorted(ranked, NewsBefore);
    SubsequenceKeepsSorted(Dedupe(sorted), sorted, NewsBefore);
  }

  lemma {:induction false} SubsequenceKeepsSorted<T>(sub: seq<T>, s: seq<T>, before: (T, T) -> bool)
    requires IsSubsequence(sub, s) && SortedBy(s, before)
    ensures SortedBy(sub, before)
  {
    if sub != [] && s != [] {
      if sub[0] == s[0] {
        SubsequenceKeepsSorted(sub[1..], s[1..], before);
        SubsequenceMembers(sub[1..], s[1..]);
        forall j | 1 <= j < |sub| ensures before(sub[0], sub[j]) {
          assert sub[j] in s[1..];
        }
      } else {
        SubsequenceKeepsSorted(sub, s[1..], before);
      }
    }
  }

  /** Of the rows sharing a link, the one kept is ranked ahead of all the
      others. */
  lemma {:induction false} DedupeKeepsBest(rs: seq<Ranked>, seen: set<Cell>)
    requires SortedBy(rs, NewsBefore)
    ensures forall a, x :: a in DedupeFrom(rs, seen) && x in rs && x.link == a.link ==> NewsBefore(a, x)
  {
    if rs != [] {
      var tail := rs[1..];
      assert SortedBy(tail, NewsBefore) by {
        forall i, j | 0 <= i < j < |tail| ensures NewsBefore(tail[i], tail[j]) {
          assert tail[i] == rs[i + 1] && tail[j] == rs[j + 1];
        }
      }
      if rs[0].link in seen {
        DedupeKeepsBest(tail, seen);
        forall a, x | a in DedupeFrom(rs, seen) && x in rs && x.link == a.link ensures NewsBefore(a, x) {
          assert x != rs[0];
          assert x in tail;
        }
      } else {
        var rest := DedupeFrom(tail, seen + {rs[0].link});
        DedupeKeepsBest(tail, seen + {rs[0].link});
        forall a, x | a in DedupeFrom(rs, seen) && x in rs && x.link == a.link ensures NewsBefore(a, x) {
          if a == rs[0] {
            var j :| 0 <= j < |rs| && rs[j] == x;
            NewsBeforeIsTotalPreorder();
            if j > 0 {
              assert NewsBefore(rs[0], rs[j]);
            }
          } else {
            assert a in rest;
            assert x != rs[0];
            assert x in tail;
          }
        }
      }
    }
  }

  /** Among matching rows that share a link, the picked one is ranked ahead
      of every other; and when fewer than `topn` rows are picked, every
      matching row's link is among them. */
  lemma PickedRowsAreBestPerLink(news: seq<Row>, eventName: string, company: string, topn: int, p: Parsers)
    ensures var rep := PickSpec(news, eventName, company, topn, p);
      var ranked := RankAll(Matching(news, eventName, company), p);
      && (forall a, x :: a in rep && x in ranked && x.link == a.link ==> NewsBefore(a, x))
      && (topn >= 0 && |rep| < topn ==> forall x :: x in ranked ==> x.link in Links(rep))
  {
    var ranked := RankAll(Matching(news, eventName, company), p);
    var sorted := InsertionSort(ranked, NewsBefore);
    var deduped := Dedupe(sorted);
    var rep := PickSpec(news, eventName, company, topn, p);
    NewsBeforeIsTotalPreorder();
    SortIsSorted(ranked, NewsBefore);
    SortIsPermutation(ranked, NewsBefore);
    DedupeKeepsBest(sorted, {});
    forall a, x | a in rep && x in ranked && x.link == a.link ensures NewsBefore(a, x) {
      assert a in deduped;
      assert x in multiset(sorted);
    }
    if topn >= 0 && |rep| < topn {
      assert rep == deduped;
      forall x | x in ranked ensures x.link in Links(rep) {
        assert x in multiset(sorted);
        var j :| 0 <= j < |sorted| && sorted[j] == x;
      }
    }
  }

  /** `head(topn)` keeps the top of the deduplicated ranking: every picked
      row is ranked ahead of each matching row whose link was not picked. */
  lemma PickedRowsOutrankUnpicked(news: seq<Row>, eventName: string, company: string, topn: int, p: Parsers)
    ensures var rep := PickSpec(news, eventName, company, topn, p);
      var ranked := RankAll(Matching(news, eventName, company), p);
      forall a, x :: a in rep && x in ranked && x.link !in Links(rep) ==> NewsBefore(a, x)
  {
    var ranked := RankAll(Matching(news, eventName, company), p);
    var sorted := InsertionSort(ranked, NewsBefore);
    var rep := PickSpec(news, eventName, company, topn, p);
    NewsBeforeIsTotalPreorder();
    SortIsSorted(ranked, NewsBefore);
    SortIsPermutation(ranked, NewsBefore);
    forall x | x in ranked ensures x in sorted {
      assert x in multiset(sorted);
    }
    HeadOutranksRest(sorted, rep);
  }

  /** A prefix of the deduplicated sorted rows is ranked ahead of every row
      whose link it does not hold. */
  lemma HeadOutranksRest(sorted: seq<Ranked>, rep: seq<Ranked>)
    requires SortedBy(sorted, NewsBefore)
    requires |rep| <= |Dedupe(sorted)| && rep == Dedupe(sorted)[..|rep|]
    ensures forall a, x :: a in rep && x in sorted && x.link !in Links(rep) ==> NewsBefore(a, x)
  {
    var deduped := Dedupe(sorted);
    NewsBeforeIsTotalPreorder();
    SubsequenceKeepsSorted(deduped, sorted, NewsBefore);
    DedupeKeepsBest(sorted, {});
    forall a, x | a in rep && x in sorted && x.link !in Links(rep) ensures NewsBefore(a, x) {
      var j :| 0 <= j < |sorted| && sorted[j] == x;
      assert x.link in Links(deduped);
      LinksMembers(deduped, x.link);
      LinksMembers(rep, x.link);
      var k :| 0 <= k < |deduped| && deduped[k].link == x.link;
      assert forall i :: 0 <= i < |rep| ==> rep[i] == deduped[i];
      assert k >= |rep|;
      var q :| 0 <= q < |rep| && rep[q] == a;
      assert NewsBefore(deduped[q], deduped[k]);
      assert NewsBefore(deduped[k], x);
    }
  }
}
