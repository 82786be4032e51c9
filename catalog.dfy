/** The keyword taxonomy of lib/keywords/catalog.ts: categories, each with an
    ordered list of keywords. */
module Catalog {
  import opened TextOps

  datatype KeywordCat = KeywordCat(key: string, title: string, desc: Option<string>, items: seq<string>)

  /** `KEYWORD_CATS.flatMap((c) => c.items)`. */
  function AllKeywords(cats: seq<KeywordCat>): (r: seq<string>)
    ensures forall c, k :: c in cats && k in c.items ==> k in r
    ensures forall k :: k in r ==> exists c :: c in cats && k in c.items
  {
    if cats == [] then [] else cats[0].items + AllKeywords(cats[1..])
  }

  /** Total number of keywords, `cats.reduce((acc, c) => acc + c.items.length, 0)`. */
  function ItemCount(cats: seq<KeywordCat>): nat
  {
    if cats == [] then 0 else |cats[0].items| + ItemCount(cats[1..])
  }

  lemma {:induction false} AllKeywordsLength(cats: seq<KeywordCat>)
    ensures |AllKeywords(cats)| == ItemCount(cats)
  {
    if cats != [] {
      AllKeywordsLength(cats[1..]);
    }
  }

  /** The shipped catalog. */
  const KeywordCats: seq<KeywordCat> := [
    KeywordCat("packaging", "先進製程 / 封裝", Some("先進封裝、HBM、Chiplet、CoWoS 等。"),
      ["2奈米", "3DIC", "先進製程封裝", "CoWoS", "CoWoS-L", "CoWoS-S",
       "CoWoS-R", "SoIC", "FOPLP", "CoWoP", "Chiplet", "小晶片"]),
    KeywordCat("interconnect", "高速互連 / 光", Some("CPO、光通訊、800G/1.6T、光模組。"),
      ["800G", "1.6T", "CPO", "光收發", "光模組", "交換器",
       "AEC", "PCIe", "InP", "磷化銦", "矽光子"]),
    KeywordCat("power-dc", "電力 / 資料中心", Some("HVDC、BBU、UPS、機櫃電源與配電。"),
      ["HVDC", "UPS", "BBU", "Power shelf", "機櫃電源", "PDU",
       "整流器", "變壓器", "變電站", "電網", "儲能", "核電"])
  ]
}
