/** common/message.go: the wire document, the indexable document, the search-index
    document, and the transformation between the first two. */
module Message {
  import opened Util

  datatype GeoTag = GeoTag(Coord: string, Name: string, Pid: string, Score: real,
                           Type: string, Zipcodes: seq<string>)

  /** Category name → confidence score, on three levels. A nil map is the empty map. */
  datatype TextCategoryStruct = TextCategoryStruct(FirstCategory: map<string, real>,
                                                   SecondCategory: map<string, real>,
                                                   ThirdCategory: map<string, real>)

  /** The zero value `&TextCategoryStruct{}`. */
  const EmptyCategory: TextCategoryStruct := TextCategoryStruct(map[], map[], map[])

  /** The category predicates the filters use. Their Go bodies are not part of this
      model; they are taken to be key membership, and "sport" to mean that "Sports" is
      one of the first-level categories. */
  predicate HasFirstCategory(t: TextCategoryStruct, c: string)
  {
    c in t.FirstCategory
  }

  predicate HasThirdCategory(t: TextCategoryStruct, c: string)
  {
    c in t.ThirdCategory
  }

  predicate IsSport(t: TextCategoryStruct)
  {
    HasFirstCategory(t, "Sports")
  }

  /** The document as it arrives on the news topic. */
  datatype CppDocument = CppDocument(
    DocId: string,
    Epoch: Int64,
    Title: string,
    ContentType: string,
    Domain: string,
    Source: string,
    Url: string,
    IsLocalNews: string,
    GeoTags: seq<GeoTag>,
    Pois: seq<string>,
    Channels: seq<string>,
    Tpcs: map<string, real>,
    TextCategory: Option<TextCategoryStruct>)

  /** The document the filters and emitters read: every field any of them refers to. */
  datatype IndexerDocument = IndexerDocument(
    DocId: string,
    Epoch: Int64,
    Title: string,
    ContentType: string,
    Domain: string,
    Source: string,
    Url: string,
    IsLocalNews: string,
    GeoTags: seq<GeoTag>,
    Pois: seq<string>,
    Channels: seq<string>,
    ChannelsV2: seq<string>,
    NluTags: seq<string>,
    Tpcs: map<string, real>,
    TextCategory: Option<TextCategoryStruct>,
    TextCategoryV2: Option<TextCategoryStruct>,
    IsAdult: bool,
    IsOldDoc: bool,
    TitleCCount: int,
    ImageCount: int,
    WordCount: int,
    HasVideo: bool)

  /** The search-index projection. `Date` is the document's epoch in seconds and
      `Timestamp` the indexing time in milliseconds. */
  datatype EsDocument = EsDocument(
    DocId: string,
    Date: Int64,
    Title: string,
    Timestamp: int,
    ContentType: string,
    Domain: string,
    Source: string,
    Url: string,
    Pois: seq<string>,
    Channels: seq<string>,
    NluTags: seq<string>,
    Tpcs: seq<string>,
    FirstCats: seq<string>,
    SecondCats: seq<string>,
    ThirdCats: seq<string>)

  /** The content type given to a wire document that has none. */
  const DefaultContentType: string := "news"

  /** The wire fields of an indexable document, read back. */
  function WireOf(d: IndexerDocument): CppDocument
  {
    CppDocument(d.DocId, d.Epoch, d.Title, d.ContentType, d.Domain, d.Source, d.Url,
                d.IsLocalNews, d.GeoTags, d.Pois, d.Channels, d.Tpcs, d.TextCategory)
  }

  /** Converts a wire document. Fields the wire document does not carry keep Go's zero
      values; `Url` is never assigned, so it is always empty. */
  function NewIndexerDocumentFromCpp(doc: CppDocument): (r: IndexerDocument)
    ensures r.ContentType == (if |doc.ContentType| == 0 then DefaultContentType else doc.ContentType)
    ensures r.TextCategory == (if doc.TextCategory.None? then Some(EmptyCategory) else doc.TextCategory)
    ensures r.Url == ""
    ensures r.DocId == doc.DocId && r.Epoch == doc.Epoch && r.Title == doc.Title
    ensures r.Domain == doc.Domain && r.Source == doc.Source && r.IsLocalNews == doc.IsLocalNews
    ensures r.GeoTags == doc.GeoTags && r.Pois == doc.Pois && r.Channels == doc.Channels && r.Tpcs == doc.Tpcs
    ensures r.ChannelsV2 == [] && r.NluTags == [] && r.TextCategoryV2.None?
    ensures !r.IsAdult && !r.IsOldDoc && !r.HasVideo
    ensures r.TitleCCount == 0 && r.ImageCount == 0 && r.WordCount == 0
  {
    var ctype := if |doc.ContentType| == 0 then DefaultContentType else doc.ContentType;
    var cate := if doc.TextCategory.None? then Some(EmptyCategory) else doc.TextCategory;
    IndexerDocument(
      DocId := doc.DocId, Epoch := doc.Epoch, Title := doc.Title, ContentType := ctype,
      Domain := doc.Domain, Source := doc.Source, Url := "", IsLocalNews := doc.IsLocalNews,
      GeoTags := doc.GeoTags, Pois := doc.Pois, Channels := doc.Channels, ChannelsV2 := [],
      NluTags := [], Tpcs := doc.Tpcs, TextCategory := cate, TextCategoryV2 := None,
      IsAdult := false, IsOldDoc := false, TitleCCount := 0, ImageCount := 0,
      WordCount := 0, HasVideo := false)
  }

  /** What every transformed document satisfies. */
  predicate Normalized(d: IndexerDocument)
  {
    |d.ContentType| > 0 && d.TextCategory.Some? && d.Url == ""
  }

  /** The transformer's output is normalized, and it loses a wire field exactly when
      that field was a default-able one: an empty content type, a nil category, or a
      non-empty URL. */
  lemma TransformRoundTrip(doc: CppDocument)
    ensures Normalized(NewIndexerDocumentFromCpp(doc))
    ensures WireOf(NewIndexerDocumentFromCpp(doc)) == doc
        <==> |doc.ContentType| > 0 && doc.TextCategory.Some? && doc.Url == ""
  {
    var r := NewIndexerDocumentFromCpp(doc);
    if WireOf(r) == doc {
      assert WireOf(r).Url == doc.Url;
      assert WireOf(r).ContentType == doc.ContentType;
      assert WireOf(r).TextCategory == doc.TextCategory;
    }
  }

  // ---------------------------------------------------------------- top category

  /** The category the loop of `GetFirstCategory` ends with after visiting `order`:
      the last visited key whose score reaches `floor`, or "" if none does. */
  function LastAtLeast(order: seq<string>, m: map<string, real>, floor: real): string
    decreases |order|
  {
    if |order| == 0 then ""
    else
      var c := order[|order| - 1];
      if c in m && m[c] >= floor then c else LastAtLeast(order[..|order| - 1], m, floor)
  }

  /** The loop's result is "" or a key scoring at least the floor, and it is such a
      key whenever one was visited. */
  lemma {:induction false} LastAtLeastChoice(order: seq<string>, m: map<string, real>, floor: real)
    ensures var c := LastAtLeast(order, m, floor);
      (c == "" || (c in order && c in m && m[c] >= floor))
      && ((exists k :: k in order && k in m && m[k] >= floor) ==> c in order && c in m && m[c] >= floor)
    decreases |order|
  {
    if |order| > 0 {
      var init := order[..|order| - 1];
      LastAtLeastChoice(init, m, floor);
      var last := order[|order| - 1];
      if !(last in m && m[last] >= floor) {
        forall k | k in order && k in m && m[k] >= floor ensures k in init {
          var i :| 0 <= i < |order| && order[i] == k;
          assert i < |order| - 1;
          assert init[i] == k;
        }
      }
    }
  }

  /** The running score of the loop stays at -1 (it is never raised), so `v >= score`
      holds for every key scoring -1 or more, and the result is the last such key in
      Go's random map order: a key of the map, not necessarily the highest-scoring one. */
  method GetFirstCategory(t: Option<TextCategoryStruct>) returns (cat: string)
    ensures t.None? ==> cat == ""
    ensures t.Some? ==> exists order :: Enumerates(order, t.value.FirstCategory.Keys)
                                        && cat == LastAtLeast(order, t.value.FirstCategory, -1.0)
  {
    if t.None? {
      return "";
    }
    var m := t.value.FirstCategory;
    var score: real := -1.0;
    cat := "";
    var remaining := m.Keys;
    ghost var visited: seq<string> := [];
    while remaining != {}
      invariant Enumerates(visited, m.Keys - remaining)
      invariant remaining <= m.Keys
      invariant score == -1.0
      invariant cat == LastAtLeast(visited, m, -1.0)
      decreases remaining
    {
      var c :| c in remaining;
      EnumeratesVisit(visited, m.Keys, remaining, c);
      if m[c] >= score {
        cat := c;
      }
      assert (visited + [c])[..|visited|] == visited;
      visited := visited + [c];
      remaining := remaining - {c};
    }
    assert Enumerates(visited, m.Keys);
  }

  /** The as-written loop can miss the highest score: visiting "Politics" (0.9) before
      "Sports" (0.1) ends with "Sports". */
  lemma FirstCategoryNotTop()
    ensures var m := map["Politics" := 0.9, "Sports" := 0.1];
      Enumerates(["Politics", "Sports"], m.Keys)
      && LastAtLeast(["Politics", "Sports"], m, -1.0) == "Sports"
      && m["Sports"] < m["Politics"]
  {
    var m := map["Politics" := 0.9, "Sports" := 0.1];
    assert ["Politics", "Sports"][..1] == ["Politics"];
    assert forall x :: x in ["Politics", "Sports"] <==> x in m.Keys;
  }

  /** The intended top-category selection: the running score follows the winner, so the
      result has the highest score of all keys that reach -1. */
  method TopFirstCategory(t: Option<TextCategoryStruct>) returns (cat: string)
    ensures t.None? ==> cat == ""
    ensures t.Some? && (forall k :: k in t.value.FirstCategory ==> t.value.FirstCategory[k] < -1.0) ==> cat == ""
    ensures t.Some? && (exists k :: k in t.value.FirstCategory && t.value.FirstCategory[k] >= -1.0) ==>
              cat in t.value.FirstCategory
              && forall k :: k in t.value.FirstCategory ==> t.value.FirstCategory[k] <= t.value.FirstCategory[cat]
  {
    if t.None? {
      return "";
    }
    var m := t.value.FirstCategory;
    var score: real := -1.0;
    cat := "";
    var found := false;
    var remaining := m.Keys;
    while remaining != {}
      invariant remaining <= m.Keys
      invariant found ==> cat in m && m[cat] == score
      invariant !found ==> cat == "" && score == -1.0
      invariant found <==> exists k :: k in m.Keys - remaining && m[k] >= -1.0
      invariant forall k :: k in m.Keys - remaining && m[k] >= -1.0 ==> m[k] <= score
      decreases remaining
    {
      var c :| c in remaining;
      if m[c] >= score {
        cat := c;
        score := m[c];
        found := true;
      }
      remaining := remaining - {c};
    }
  }
}
