/** The research notes of lib/notes.ts: the shipped notes, the newest-first
    copy the pages list, and the lookup by slug. */
module Notes {
  import opened TextOps
  import opened Sorting

  /** A note; `weight` is a JavaScript number, modelled as a real. */
  datatype Note = Note(
    slug: string,
    title: string,
    date: string,
    summary: string,
    tags: seq<string>,
    theme: Option<string>,
    subTheme: Option<string>,
    weight: Option<real>,
    body: seq<string>)

  const EventContinuity: Note := Note(
    "event-continuity",
    "事件連續性：題材如何開始自我增強",
    "2026-02-04",
    "把同主題新聞拆成來源擴散、公司擴散與時間密度，建立可量化指標。",
    ["EventRadar", "News", "Momentum"],
    Some("事件雷達"),
    Some("連續性"),
    Some(0.8),
    ["核心想法：題材不是『出現一次』就有效，而是需要形成連續性與擴散性。",
     "可量化拆解：來源擴散、公司擴散、時間密度，三者同時上升時，題材會開始自我強化。",
     "交易角度：連續性往往對應『不相信的人』被迫修正預期，形成同時平倉推動。"])

  const BbuHvdc: Note := Note(
    "bbu-hvdc",
    "BBU × HVDC：資料中心電力需求推導",
    "2026-02-01",
    "從機櫃功耗與備援等級拆解電力架構：瓶頸、ASP、誰有定價權。",
    ["Power", "DataCenter", "SupplyChain"],
    Some("AI 硬體供應鏈"),
    Some("Power"),
    Some(0.75),
    ["核心想法：功耗上升時，系統會先在瓶頸段升級，該段通常也是 ASP 提升段。",
     "拆解方式：機櫃功耗 → 備援等級 → 電力轉換層級，逐層找出最吃材料與良率的環節。",
     "觀察重點：誰能提供整套方案、交期最緊、良率最難，就是定價權所在。"])

  /** `NOTES`. */
  const AllNotes: seq<Note> := [EventContinuity, BbuHvdc]

  /** The comparator `a.date < b.date ? 1 : -1`: `a` may stay ahead of `b`
      unless its date is the earlier one. */
  predicate NewerFirst(a: Note, b: Note)
  {
    !LexLess(a.date, b.date)
  }

  lemma NewerFirstIsTotalPreorder()
    ensures Total(NewerFirst) && Transitive(NewerFirst)
  {
    forall a: Note, b: Note ensures NewerFirst(a, b) || NewerFirst(b, a) {
      if LexLess(a.date, b.date) {
        LexAsymmetric(a.date, b.date);
      }
    }
    forall a: Note, b: Note, c: Note | NewerFirst(a, b) && NewerFirst(b, c) ensures NewerFirst(a, c) {
      LexLeTotalOrder();
      assert LexLe(b.date, a.date) && LexLe(c.date, b.date);
    }
  }

  /** `[...notes].sort(...)`: a sorted copy; the input is a value and stays
      as it was. */
  function ByDate(notes: seq<Note>): seq<Note>
  {
    InsertionSort(notes, NewerFirst)
  }

  /** The copy holds the same notes, and their dates never increase. */
  lemma ByDateIsNewestFirst(notes: seq<Note>)
    ensures multiset(ByDate(notes)) == multiset(notes)
    ensures |ByDate(notes)| == |notes|
    ensures var s := ByDate(notes);
      forall i, j :: 0 <= i < j < |s| ==> LexLe(s[j].date, s[i].date)
  {
    SortIsPermutation(notes, NewerFirst);
    NewerFirstIsTotalPreorder();
    SortIsSorted(notes, NewerFirst);
  }

  /** `getAllNotes()`. */
  function GetAllNotes(): seq<Note>
  {
    ByDate(AllNotes)
  }

  /** `notes.find((n) => n.slug === slug)`. */
  function FindBySlug(notes: seq<Note>, slug: string): (r: Option<Note>)
    ensures r.None? <==> forall i :: 0 <= i < |notes| ==> notes[i].slug != slug
    ensures r.Some? ==>
      exists i :: 0 <= i < |notes| && notes[i] == r.value && r.value.slug == slug &&
        forall k :: 0 <= k < i ==> notes[k].slug != slug
  {
    if notes == [] then None
    else if notes[0].slug == slug then Some(notes[0])
    else
      var r := FindBySlug(notes[1..], slug);
      assert forall i :: 1 <= i < |notes| ==> notes[i] == notes[1..][i - 1];
      r
  }

  /** `getNoteBySlug(slug)`. */
  function GetNoteBySlug(slug: string): Option<Note>
  {
    FindBySlug(AllNotes, slug)
  }

  /** The shipped slugs are distinct, so each is found as its own note. */
  lemma ShippedSlugsDistinct()
    ensures AllNotes[0].slug != AllNotes[1].slug
    ensures GetNoteBySlug("event-continuity") == Some(EventContinuity)
    ensures GetNoteBySlug("bbu-hvdc") == Some(BbuHvdc)
    ensures GetNoteBySlug("") == None
  {
    assert EventContinuity.slug[0] != BbuHvdc.slug[0];
  }

  /** The shipped list is newest first: the 4 February note comes before
      the 1 February one. */
  lemma ShippedNotesNewestFirst()
    ensures GetAllNotes() == [EventContinuity, BbuHvdc]
  {
    LexLessAt(BbuHvdc.date, EventContinuity.date, 9);
    LexAsymmetric(BbuHvdc.date, EventContinuity.date);
    assert AllNotes[..1] == [EventContinuity];
    assert InsertionSort([EventContinuity], NewerFirst) == [EventContinuity];
  }
}
