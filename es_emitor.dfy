/** emitor/es_emitor.go: the search-index emitter. A document is projected onto the
    index document, encoded as JSON and written to a day-partitioned index. */
module EsEmitor {
  import opened Util
  import opened Message
  import opened LogBag
  import Constant

  /** One index partition per day of document epoch. */
  const IndexSplitWindow: int := 86400

  /** `doc.Epoch / ES_INDEX_SPLIT_WINDOW` with Go's division, which truncates toward
      zero: the partition of a negative epoch is rounded up, not down. */
  function IndexSplit(epoch: Int64): (d: int)
    ensures 0 <= epoch ==> d * IndexSplitWindow <= epoch < (d + 1) * IndexSplitWindow
    ensures epoch < 0 ==> (d - 1) * IndexSplitWindow < epoch <= d * IndexSplitWindow
  {
    if epoch >= 0 then epoch / IndexSplitWindow else -((-(epoch as int)) / IndexSplitWindow)
  }

  /** The partition name "<pattern>-<split>". */
  function IndexName(pattern: string, epoch: Int64): string
  {
    pattern + "-" + Decimal(IndexSplit(epoch))
  }

  /** Two epochs land in the same index exactly when they share a partition number. */
  lemma SameIndexIff(pattern: string, a: Int64, b: Int64)
    ensures IndexName(pattern, a) == IndexName(pattern, b) <==> IndexSplit(a) == IndexSplit(b)
  {
    if IndexName(pattern, a) == IndexName(pattern, b) {
      var pre := pattern + "-";
      assert IndexName(pattern, a)[|pre|..] == Decimal(IndexSplit(a));
      assert IndexName(pattern, b)[|pre|..] == Decimal(IndexSplit(b));
      DecimalInjective(IndexSplit(a), IndexSplit(b));
    }
  }

  /** Partitions follow time: a later epoch never goes to an earlier partition. */
  lemma IndexSplitMonotone(a: Int64, b: Int64)
    requires a <= b
    ensures IndexSplit(a) <= IndexSplit(b)
  {
  }

  /** Non-negative epochs a whole window apart land in different indices. */
  lemma NextDayNewIndex(pattern: string, e: Int64)
    requires 0 <= e && e + IndexSplitWindow < 0x8000_0000_0000_0000
    ensures IndexName(pattern, e) != IndexName(pattern, e + IndexSplitWindow)
  {
    SameIndexIff(pattern, e, e + IndexSplitWindow);
  }

  /** Truncation makes partition 0 two windows wide: one second before and one second
      after epoch 0 share an index. */
  lemma PartitionZeroIsDoubled(pattern: string)
    ensures IndexName(pattern, -86399) == IndexName(pattern, 86399) == pattern + "-0"
  {
  }

  /** The keys whose score reaches the fixed cut-off 0.3. */
  ghost function KeysAtLeast(m: map<string, real>): set<string>
  {
    set k | k in m && m[k] >= 0.3
  }

  /** `mapKeyList`: the keys scoring at least 0.3, in Go's random map order. The `thr`
      argument is not used: the cut-off is the literal 0.3 for every caller. */
  method MapKeyList(m: map<string, real>, thr: real) returns (l: seq<string>)
    ensures Enumerates(l, KeysAtLeast(m))
    ensures |m| == 0 ==> l == []
  {
    l := [];
    if |m| == 0 {
      return;
    }
    var remaining := m.Keys;
    while remaining != {}
      invariant remaining <= m.Keys
      invariant Enumerates(l, KeysAtLeast(m) - remaining)
      decreases remaining
    {
      var k :| k in remaining;
      if m[k] >= 0.3 {
        l := l + [k];
      }
      remaining := remaining - {k};
    }
    assert KeysAtLeast(m) - remaining == KeysAtLeast(m);
  }

  /** The index document built from `doc`: `isExp` selects the experimental channels
      and categories. The indexing time is `nowMs` (`time.Now()` in milliseconds). */
  ghost predicate EsDocOf(doc: IndexerDocument, isExp: bool, nowMs: int, e: EsDocument)
    requires isExp ==> doc.TextCategoryV2.Some?
    requires !isExp ==> doc.TextCategory.Some?
  {
    var cats := if isExp then doc.TextCategoryV2.value else doc.TextCategory.value;
    && e.DocId == doc.DocId && e.Date == doc.Epoch && e.Title == doc.Title
    && e.Timestamp == nowMs && e.ContentType == doc.ContentType && e.Domain == doc.Domain
    && e.Source == Constant.ReplaceSpace(ToLower(doc.Source))
    && e.Url == doc.Url && e.Pois == doc.Pois && e.NluTags == doc.NluTags
    && e.Channels == (if isExp then doc.ChannelsV2 else doc.Channels)
    && Enumerates(e.Tpcs, KeysAtLeast(doc.Tpcs))
    && Enumerates(e.FirstCats, KeysAtLeast(cats.FirstCategory))
    && Enumerates(e.SecondCats, KeysAtLeast(cats.SecondCategory))
    && Enumerates(e.ThirdCats, KeysAtLeast(cats.ThirdCategory))
  }

  /** `transformToBaseEsDoc`. Go dereferences the category pointer, so a nil one
      panics; callers pass transformed documents, whose category is never nil. */
  method TransformToBaseEsDoc(doc: IndexerDocument, nowMs: int) returns (e: EsDocument)
    requires doc.TextCategory.Some?
    ensures EsDocOf(doc, false, nowMs, e)
    ensures ' ' !in e.Source
  {
    var tpcs := MapKeyList(doc.Tpcs, 0.3);
    var first := MapKeyList(doc.TextCategory.value.FirstCategory, 0.0);
    var second := MapKeyList(doc.TextCategory.value.SecondCategory, 0.0);
    var third := MapKeyList(doc.TextCategory.value.ThirdCategory, 0.0);
    e := EsDocument(doc.DocId, doc.Epoch, doc.Title, nowMs, doc.ContentType, doc.Domain,
                    Constant.ReplaceSpace(ToLower(doc.Source)), doc.Url, doc.Pois, doc.Channels,
                    doc.NluTags, tpcs, first, second, third);
  }

  /** `transformToExpEsDoc`: as the base projection, but from the experimental channels
      and categories; a nil experimental category panics in Go. */
  method TransformToExpEsDoc(doc: IndexerDocument, nowMs: int) returns (e: EsDocument)
    requires doc.TextCategoryV2.Some?
    ensures EsDocOf(doc, true, nowMs, e)
    ensures ' ' !in e.Source
  {
    var tpcs := MapKeyList(doc.Tpcs, 0.3);
    var first := MapKeyList(doc.TextCategoryV2.value.FirstCategory, 0.0);
    var second := MapKeyList(doc.TextCategoryV2.value.SecondCategory, 0.0);
    var third := MapKeyList(doc.TextCategoryV2.value.ThirdCategory, 0.0);
    e := EsDocument(doc.DocId, doc.Epoch, doc.Title, nowMs, doc.ContentType, doc.Domain,
                    Constant.ReplaceSpace(ToLower(doc.Source)), doc.Url, doc.Pois, doc.ChannelsV2,
                    doc.NluTags, tpcs, first, second, third);
  }

  /** `esPrepare`: the index document and the partition it goes to. */
  method EsPrepare(doc: IndexerDocument, isExp: bool, indexPattern: string, nowMs: int)
    returns (e: EsDocument, index: string)
    requires isExp ==> doc.TextCategoryV2.Some?
    requires !isExp ==> doc.TextCategory.Some?
    ensures EsDocOf(doc, isExp, nowMs, e)
    ensures index == IndexName(indexPattern, doc.Epoch)
    ensures e.DocId == doc.DocId && e.Date == doc.Epoch
  {
    index := indexPattern + "-" + Decimal(IndexSplit(doc.Epoch));
    if isExp {
      e := TransformToExpEsDoc(doc, nowMs);
    } else {
      e := TransformToBaseEsDoc(doc, nowMs);
    }
  }

  /** The JSON encoder's answer for a document: the text, or an encoding error. */
  datatype Encoded = Encoded(json: string) | EncodeError(msg: string)

  /** What the index service answers to the index request: a transport failure, an error
      status, a success status whose body does not decode, or a success carrying the
      document's new version. `ErrorStatus` stands for a status that `res.IsError()`
      reports, that is above 299, and the other statuses are at most 299; the type
      itself does not restrict the numbers. */
  datatype EsReply =
    | TransportError(msg: string)
    | ErrorStatus(status: int)
    | BadBody(status: int, msg: string)
    | Versioned(status: int, version: int)

  /** The error `doIndex` returns for a reply to an encoded document. */
  function ReplyError(reply: EsReply): (err: Error)
    ensures err.None? <==> reply.Versioned?
    ensures reply.ErrorStatus? ==> err == Some("es error status: " + Decimal(reply.status))
  {
    match reply
    case TransportError(msg) => Some(msg)
    case ErrorStatus(status) => Some("es error status: " + Decimal(status))
    case BadBody(_, msg) => Some(msg)
    case Versioned(_, _) => None
  }

  /** The bag after `doIndex`: the JSON under "es_doc" once encoded, the status under
      "es_status" once a reply arrived, the version under "es_version" on success. It
      specifies the steps of `DoIndex`; `VersionLoggedIffIndexed` ties it to the error. */
  function DoIndexEntries(before: map<string, LogValue>, encoded: Encoded, reply: EsReply): map<string, LogValue>
  {
    if encoded.EncodeError? then before
    else
      var withDoc := before["es_doc" := Text(encoded.json)];
      match reply
      case TransportError(_) => withDoc
      case ErrorStatus(status) => withDoc["es_status" := Number(status)]
      case BadBody(status, _) => withDoc["es_status" := Number(status)]
      case Versioned(status, version) => withDoc["es_status" := Number(status)]["es_version" := Number(version)]
  }

  /** The error `doIndex` returns. */
  function DoIndexError(encoded: Encoded, reply: EsReply): (err: Error)
    ensures err.None? <==> encoded.Encoded? && reply.Versioned?
  {
    if encoded.EncodeError? then Some(encoded.msg) else ReplyError(reply)
  }

  /** A successful index leaves the version in the bag, and a failed one never does
      unless it was already there. */
  lemma VersionLoggedIffIndexed(before: map<string, LogValue>, encoded: Encoded, reply: EsReply)
    requires "es_version" !in before
    ensures "es_version" in DoIndexEntries(before, encoded, reply) <==> DoIndexError(encoded, reply).None?
  {
  }

  /** `doIndex`: encodes, records the JSON, sends, records the status and, on success,
      the version. */
  method DoIndex(encoded: Encoded, reply: EsReply, l: LogInfo) returns (err: Error)
    modifies l
    ensures err == DoIndexError(encoded, reply)
    ensures l.entries == DoIndexEntries(old(l.entries), encoded, reply)
  {
    if encoded.EncodeError? {
      return Some(encoded.msg);
    }
    l.Set("es_doc", Text(encoded.json));
    if reply.TransportError? {
      return Some(reply.msg);
    }
    l.Set("es_status", Number(reply.status));
    if reply.ErrorStatus? {
      return Some("es error status: " + Decimal(reply.status));
    }
    if reply.BadBody? {
      return Some(reply.msg);
    }
    l.Set("es_version", Number(reply.version));
    return None;
  }

  /** `indexNews` (and `indexBaseNews` with `isExp` false): records the partition under
      "es_index" before indexing, so it is logged whatever the outcome. The encoder's and
      the service's answers are parameters. */
  method IndexNews(doc: IndexerDocument, isExp: bool, indexPattern: string, nowMs: int,
                   encode: EsDocument -> Encoded, reply: EsReply, l: LogInfo) returns (err: Error)
    requires isExp ==> doc.TextCategoryV2.Some?
    requires !isExp ==> doc.TextCategory.Some?
    modifies l
    ensures exists e :: (EsDocOf(doc, isExp, nowMs, e) && err == DoIndexError(encode(e), reply)
      && l.entries == DoIndexEntries(old(l.entries)["es_index" := Text(IndexName(indexPattern, doc.Epoch))],
                                     encode(e), reply))
  {
    var e, index := EsPrepare(doc, isExp, indexPattern, nowMs);
    l.Set("es_index", Text(index));
    err := DoIndex(encode(e), reply, l);
  }

  /** `mockESEmitor`: prepares the base projection and, when it encodes, records the
      partition and the JSON; nothing is sent. An encoding error is returned with the
      bag untouched. */
  method MockEsEmit(doc: IndexerDocument, indexPattern: string, nowMs: int,
                    encode: EsDocument -> Encoded, l: LogInfo) returns (err: Error)
    requires doc.TextCategory.Some?
    modifies l
    ensures exists e :: (EsDocOf(doc, false, nowMs, e)
      && (encode(e).Encoded? ==>
            err.None? && l.entries == old(l.entries)["es_index" := Text(IndexName(indexPattern, doc.Epoch))]
                                                    ["es_doc" := Text(encode(e).json)])
      && (encode(e).EncodeError? ==> err == Some(encode(e).msg) && l.entries == old(l.entries)))
  {
    var e, index := EsPrepare(doc, false, indexPattern, nowMs);
    var encoded := encode(e);
    if encoded.EncodeError? {
      return Some(encoded.msg);
    }
    l.Set("es_index", Text(index));
    l.Set("es_doc", Text(encoded.json));
    return None;
  }
}
