/** emitor/newdoc_redis_emitor.go: the new-document emitter. It admits only recent,
    substantial documents from good sources and pushes their ids onto a capped recency
    list kept under one key. */
module RedisEmitor {
  import opened Util
  import opened Message
  import opened LogBag
  import opened SourceData

  /** First-level categories never pushed. */
  const BlockedCategories: seq<string> := ["CrimePublicsafety", "Obituary", "ClimateEnvironment"]

  /** The third-level category never pushed. */
  const BlockedThirdCategory: string := "PoliticsGovernment_Federal_POTUS"

  /** The admission rules in source order; true means the document is not pushed. The
      source record comes from the reference-data snapshot. It specifies the loop in
      `FilterForRedis`; `RedisAdmitsIff` restates it as one condition over the fields. */
  ghost predicate RedisRejects(doc: IndexerDocument, snapshot: map<string, SourceInfo>)
  {
    if doc.IsOldDoc then true
    else if doc.TitleCCount <= 5 then true
    else if doc.ImageCount == 0 then true
    else if !doc.HasVideo && doc.ImageCount < 2 && doc.WordCount < 100 then true
    else if doc.TextCategory.Some?
            && ((exists i :: 0 <= i < |BlockedCategories| && HasFirstCategory(doc.TextCategory.value, BlockedCategories[i]))
                || HasThirdCategory(doc.TextCategory.value, BlockedThirdCategory)) then true
    else
      var info := Lookup(snapshot, doc.Domain);
      if info.None? || info.value.Quality <= 3 || info.value.SourceTier <= 1 || info.value.Paywall then true
      else HasPrefix(info.value.Compatibility, "block_")
  }

  /** `filterForRedis`, scanning the blocked categories one by one. */
  method FilterForRedis(doc: IndexerDocument, snapshot: map<string, SourceInfo>) returns (rejected: bool)
    ensures rejected == RedisRejects(doc, snapshot)
  {
    if doc.IsOldDoc {
      return true;
    }
    if doc.TitleCCount <= 5 {
      return true;
    }
    if doc.ImageCount == 0 {
      return true;
    }
    if !doc.HasVideo && doc.ImageCount < 2 && doc.WordCount < 100 {
      return true;
    }
    if doc.TextCategory.Some? {
      var i := 0;
      while i < |BlockedCategories|
        invariant i <= |BlockedCategories|
        invariant forall j :: 0 <= j < i ==> !HasFirstCategory(doc.TextCategory.value, BlockedCategories[j])
      {
        if HasFirstCategory(doc.TextCategory.value, BlockedCategories[i]) {
          return true;
        }
        i := i + 1;
      }
      if HasThirdCategory(doc.TextCategory.value, BlockedThirdCategory) {
        return true;
      }
    }
    var info := Lookup(snapshot, doc.Domain);
    if info.None? || info.value.Quality <= 3 || info.value.SourceTier <= 1 || info.value.Paywall {
      return true;
    }
    if HasPrefix(info.value.Compatibility, "block_") {
      return true;
    }
    return false;
  }

  /** What admission takes, as one positive condition. */
  lemma RedisAdmitsIff(doc: IndexerDocument, snapshot: map<string, SourceInfo>)
    ensures !RedisRejects(doc, snapshot) <==>
      && !doc.IsOldDoc && doc.TitleCCount > 5 && doc.ImageCount != 0
      && (doc.HasVideo || doc.ImageCount >= 2 || doc.WordCount >= 100)
      && (doc.TextCategory.Some? ==>
            && "CrimePublicsafety" !in doc.TextCategory.value.FirstCategory
            && "Obituary" !in doc.TextCategory.value.FirstCategory
            && "ClimateEnvironment" !in doc.TextCategory.value.FirstCategory
            && BlockedThirdCategory !in doc.TextCategory.value.ThirdCategory)
      && |doc.Domain| > 0 && doc.Domain in snapshot
      && snapshot[doc.Domain].Quality > 3 && snapshot[doc.Domain].SourceTier > 1
      && !snapshot[doc.Domain].Paywall && !HasPrefix(snapshot[doc.Domain].Compatibility, "block_")
  {
    if doc.TextCategory.Some? {
      var t := doc.TextCategory.value;
      if "CrimePublicsafety" in t.FirstCategory { assert HasFirstCategory(t, BlockedCategories[0]); }
      if "Obituary" in t.FirstCategory { assert HasFirstCategory(t, BlockedCategories[1]); }
      if "ClimateEnvironment" in t.FirstCategory { assert HasFirstCategory(t, BlockedCategories[2]); }
    }
  }

  /** The transformer leaves the title and image counts at zero, so a document coming
      straight from the wire is never pushed. */
  lemma WireDocumentNeverPushed(w: CppDocument, snapshot: map<string, SourceInfo>)
    ensures RedisRejects(NewIndexerDocumentFromCpp(w), snapshot)
  {
  }

  /** LPUSH of `id` followed by LTRIM 0..limit: the stop index is inclusive, so
      `limit + 1` ids are kept. */
  function PushTrim(list: seq<string>, id: string, limit: nat): (r: seq<string>)
    ensures |r| == if |list| + 1 <= limit + 1 then |list| + 1 else limit + 1
    ensures r[0] == id
    ensures forall i :: 1 <= i < |r| ==> r[i] == list[i - 1]
  {
    var pushed := [id] + list;
    if |pushed| <= limit + 1 then pushed else pushed[..limit + 1]
  }

  function Reverse(s: seq<string>): (r: seq<string>)
    ensures |r| == |s|
    ensures forall i :: 0 <= i < |s| ==> r[i] == s[|s| - 1 - i]
    decreases |s|
  {
    if |s| == 0 then [] else [s[|s| - 1]] + Reverse(s[..|s| - 1])
  }

  /** The list after pushing `ids` one after the other. */
  function PushAll(list: seq<string>, ids: seq<string>, limit: nat): seq<string>
    decreases |ids|
  {
    if |ids| == 0 then list else PushTrim(PushAll(list, ids[..|ids| - 1], limit), ids[|ids| - 1], limit)
  }

  /** After any run of pushes the list is the newest `limit + 1` ids of all that were
      ever there, newest first: the pushed ids in reverse push order, then the old list. */
  lemma {:induction false} PushAllKeepsNewest(list: seq<string>, ids: seq<string>, limit: nat)
    requires |list| <= limit + 1
    ensures var all := Reverse(ids) + list;
      PushAll(list, ids, limit) == all[..if |all| <= limit + 1 then |all| else limit + 1]
    decreases |ids|
  {
    if |ids| > 0 {
      var init := ids[..|ids| - 1];
      var id := ids[|ids| - 1];
      PushAllKeepsNewest(list, init, limit);
      var before := Reverse(init) + list;
      var all := Reverse(ids) + list;
      assert all == [id] + before by {
        assert Reverse(ids) == [id] + Reverse(init);
      }
      var kept := before[..if |before| <= limit + 1 then |before| else limit + 1];
      var r := PushTrim(kept, id, limit);
      var n := if |all| <= limit + 1 then |all| else limit + 1;
      assert |r| == n;
      forall i | 0 <= i < n ensures r[i] == all[i] {
        if i > 0 {
          assert r[i] == kept[i - 1];
        }
      }
    }
  }

  /** A list that starts within the cap stays within it. */
  lemma PushTrimBounded(list: seq<string>, id: string, limit: nat)
    ensures |PushTrim(list, id, limit)| <= limit + 1
    ensures |list| <= limit ==> |PushTrim(list, id, limit)| == |list| + 1
  {
  }

  /** The answers of the connection: its error on checkout, the error of queueing the
      two commands, of flushing them and of reading the reply. */
  datatype RedisIo = RedisIo(connErr: Error, sendErr: Error, flushErr: Error, recvErr: Error)

  /** The commands reach the server when the connection is good and both queueing and
      flushing succeed. */
  predicate Delivered(io: RedisIo)
  {
    io.connErr.None? && io.sendErr.None? && io.flushErr.None?
  }

  /** The client, with the recency list stored under its key. */
  class RedisClient {
    const key: string
    const limit: nat
    var list: seq<string>

    constructor (key: string, limit: nat, list: seq<string>)
      ensures this.key == key && this.limit == limit && this.list == list
    {
      this.key := key;
      this.limit := limit;
      this.list := list;
    }

    /** `indexNews`: a rejected document only records force_explore=0. An admitted one
        records force_explore=1 and, when the commands are delivered, is pushed at the
        head of the capped list. Only the connection and flush errors are returned;
        queueing and reply errors are only logged. */
    method IndexNews(doc: IndexerDocument, snapshot: map<string, SourceInfo>, io: RedisIo, l: LogInfo)
      returns (err: Error)
      modifies this`list, l
      ensures RedisRejects(doc, snapshot) ==>
                err.None? && list == old(list) && l.entries == old(l.entries)["force_explore" := Number(0)]
      ensures !RedisRejects(doc, snapshot) ==> l.entries == old(l.entries)["force_explore" := Number(1)]
      ensures !RedisRejects(doc, snapshot) ==>
                err == (if io.connErr.Some? then io.connErr else io.flushErr)
      ensures list == if !RedisRejects(doc, snapshot) && Delivered(io) then PushTrim(old(list), doc.DocId, limit)
                      else old(list)
    {
      var rejected := FilterForRedis(doc, snapshot);
      if rejected {
        l.Set("force_explore", Number(0));
        return None;
      }
      l.Set("force_explore", Number(1));
      if io.connErr.Some? {
        return io.connErr;
      }
      if io.flushErr.Some? {
        return io.flushErr;
      }
      if io.sendErr.None? {
        list := PushTrim(list, doc.DocId, limit);
      }
      return None;
    }
  }
}
