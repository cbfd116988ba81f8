/** server/handler.go: the per-message pipeline (parse, transform, log, filter, emit),
    the wrapper that prints a sampled log line, and the handler's shutdown. */
module Handler {
  import opened Util
  import opened Message
  import opened LogBag
  import opened Filter
  import opened DocEmitor

  /** The keys the pipeline records before filtering, from the transformed document. */
  function DocFields(before: map<string, LogValue>, doc: IndexerDocument): map<string, LogValue>
  {
    before["docid" := Text(doc.DocId)]["epoch" := Number(doc.Epoch)]["ctype" := Text(doc.ContentType)]
          ["source" := Text(doc.Source)]["url" := Text(doc.Url)]
  }

  /** The recorded url is always empty, because the transformer never copies it. */
  lemma LoggedUrlIsEmpty(before: map<string, LogValue>, w: CppDocument)
    ensures DocFields(before, NewIndexerDocumentFromCpp(w))["url"] == Text("")
    ensures DocFields(before, NewIndexerDocumentFromCpp(w))["ctype"] != Text("")
  {
  }

  /** `newsMessageHandler`. `parsed` is the JSON decoder's answer for the message body,
      `env` the clock and expiry the filters read, `io` what the sinks answer. */
  method NewsMessageHandler(parsed: Result<CppDocument>, env: FilterEnv, registry: EmitorRegistry,
                            conf: EmitConfig, io: SinkIo, l: LogInfo) returns (err: Error)
    modifies registry, l
    ensures parsed.Err? ==> err == Some(parsed.msg) && l.entries == old(l.entries) && unchanged(registry)
    ensures parsed.Ok? && AnyRejects(NewIndexerDocumentFromCpp(parsed.value), env) ==>
      && err.None? && unchanged(registry)
      && exists name :: name in NewsFilters && Rejects(NewsFilters[name], NewIndexerDocumentFromCpp(parsed.value), env)
                        && l.entries == DocFields(old(l.entries), NewIndexerDocumentFromCpp(parsed.value))["filter" := Text(name)]
    ensures parsed.Ok? && !AnyRejects(NewIndexerDocumentFromCpp(parsed.value), env) ==>
      && registry.initialized
      && (!old(registry.initialized) ==> registry.newsEmitors == NewsEmitorsFor(conf))
      && (old(registry.initialized) ==> registry.newsEmitors == old(registry.newsEmitors))
      && Emitted(registry.newsEmitors, NewIndexerDocumentFromCpp(parsed.value), io, l.entries, err)
      && KeepsOthers(DocFields(old(l.entries), NewIndexerDocumentFromCpp(parsed.value)), l.entries, {"dests"})
  {
    if parsed.Err? {
      return Some(parsed.msg);
    }
    var doc := NewIndexerDocumentFromCpp(parsed.value);
    l.Set("docid", Text(doc.DocId));
    l.Set("epoch", Number(doc.Epoch));
    l.Set("ctype", Text(doc.ContentType));
    l.Set("source", Text(doc.Source));
    l.Set("url", Text(doc.Url));
    var rejected := FilterNews(doc, env, l);
    if rejected {
      return None;
    }
    err := EmitNews(registry, conf, doc, io, l);
  }

  /** Whether the wrapper prints the line: always for an error, otherwise when the
      random draw in [0, 100) does not exceed the configured sample rate. */
  predicate ShouldLog(err: Error, randInt: nat, sampleRate: nat)
  {
    err.Some? || randInt <= sampleRate
  }

  /** The draws 0, 1, ..., `sampleRate`. */
  function SampledDraws(sampleRate: nat): set<nat>
    decreases sampleRate
  {
    if sampleRate == 0 then {0} else SampledDraws(sampleRate - 1) + {sampleRate}
  }

  /** The draws that print a successful message's line are exactly 0..`sampleRate`:
      because the comparison is `<=`, a sample rate r below 100 prints r + 1 of the 100
      equally likely draws: even a rate of 0 prints one successful message in a hundred. */
  lemma {:induction false} SampledDrawsCount(sampleRate: nat)
    requires sampleRate < 100
    ensures |SampledDraws(sampleRate)| == sampleRate + 1
    ensures forall x: nat :: x < 100 ==> (x in SampledDraws(sampleRate) <==> ShouldLog(None, x, sampleRate))
  {
    if sampleRate > 0 {
      SampledDrawsCount(sampleRate - 1);
      assert sampleRate !in SampledDraws(sampleRate - 1);
    }
  }

  /** The printed line: the bag, the consumer name, the cost in microseconds, the error
      flag and the error text or "OK". `LogLineTail` takes it apart. */
  function LogLine(bag: string, name: string, costUs: int, err: Error): (line: string)
    ensures HasPrefix(line, bag + " kafka=" + name + " cost=" + Decimal(costUs) + " error=")
  {
    bag + " kafka=" + name + " cost=" + Decimal(costUs)
        + " error=" + (if err.Some? then "1" else "0")
        + " msg=" + (if err.Some? then err.value else "OK")
  }

  /** The line is the head (bag, consumer name, cost), then " error=", a flag that is
      '1' exactly for an error, then " msg=", then the error text or "OK". */
  lemma LogLineTail(bag: string, name: string, costUs: int, err: Error)
    ensures var line := LogLine(bag, name, costUs, err);
      var head := bag + " kafka=" + name + " cost=" + Decimal(costUs);
      var msg := if err.Some? then err.value else "OK";
      && |line| == |head| + 13 + |msg|
      && line[..|head|] == head
      && line[|head|..|head| + 7] == " error="
      && line[|head| + 7] == (if err.Some? then '1' else '0')
      && line[|head| + 8..|head| + 13] == " msg="
      && line[|line| - |msg|..] == msg
  {
    var head := bag + " kafka=" + name + " cost=" + Decimal(costUs);
    var msg := if err.Some? then err.value else "OK";
    var flag := if err.Some? then "1" else "0";
    var line := head + " error=" + flag + " msg=" + msg;
    assert LogLine(bag, name, costUs, err) == line;
    assert line[..|head|] == head;
    assert line[|head|..|head| + 7] == " error=";
    assert line[|head| + 8..|head| + 13] == " msg=";
  }

  /** `handlerWrapper("news", newsMessageHandler)` applied to one message: a fresh bag,
      the pipeline, then a line printed when `ShouldLog` holds. The handler's error is
      returned unchanged, and the printed line renders the bag the pipeline left, which
      is returned as `entries`. The draw and the elapsed time are parameters. */
  method HandleNews(parsed: Result<CppDocument>, env: FilterEnv, registry: EmitorRegistry,
                    conf: EmitConfig, io: SinkIo, randInt: nat, sampleRate: nat, costUs: int)
    returns (err: Error, line: Option<string>, ghost entries: map<string, LogValue>)
    requires randInt < 100
    modifies registry
    ensures parsed.Err? ==> err == Some(parsed.msg) && entries == map[] && unchanged(registry)
    ensures parsed.Ok? && AnyRejects(NewIndexerDocumentFromCpp(parsed.value), env) ==>
      && err.None? && unchanged(registry)
      && exists name :: name in NewsFilters && Rejects(NewsFilters[name], NewIndexerDocumentFromCpp(parsed.value), env)
                        && entries == DocFields(map[], NewIndexerDocumentFromCpp(parsed.value))["filter" := Text(name)]
    ensures parsed.Ok? && !AnyRejects(NewIndexerDocumentFromCpp(parsed.value), env) ==>
      && registry.initialized
      && (!old(registry.initialized) ==> registry.newsEmitors == NewsEmitorsFor(conf))
      && (old(registry.initialized) ==> registry.newsEmitors == old(registry.newsEmitors))
      && Emitted(registry.newsEmitors, NewIndexerDocumentFromCpp(parsed.value), io, entries, err)
      && KeepsOthers(DocFields(map[], NewIndexerDocumentFromCpp(parsed.value)), entries, {"dests"})
    ensures line.Some? <==> ShouldLog(err, randInt, sampleRate)
    ensures line.Some? ==> exists order :: Enumerates(order, entries.Keys)
                             && line.value == LogLine(Join(Segments(order, entries), " "), "news", costUs, err)
  {
    var l := new LogInfo();
    err := NewsMessageHandler(parsed, env, registry, conf, io, l);
    entries := l.entries;
    if ShouldLog(err, randInt, sampleRate) {
      var bag := ToString(l);
      line := Some(LogLine(bag, "news", costUs, err));
    } else {
      line := None;
    }
  }

  /** The topic consumer, reduced to its lifecycle. */
  class KafkaConsumer {
    var closed: bool
    var joined: bool

    constructor ()
      ensures !closed && !joined
    {
      closed := false;
      joined := false;
    }

    method Close()
      modifies this
      ensures closed && joined == old(joined)
    {
      closed := true;
    }

    method Join()
      modifies this
      ensures joined && closed == old(closed)
    {
      joined := true;
    }
  }

  /** The server handler; it has a consumer only when the news topic is enabled. */
  class NewsHandler {
    const newsConsumer: KafkaConsumer?

    constructor (enable: bool)
      ensures enable <==> newsConsumer != null
      ensures newsConsumer != null ==> fresh(newsConsumer) && !newsConsumer.closed && !newsConsumer.joined
    {
      if enable {
        newsConsumer := new KafkaConsumer();
      } else {
        newsConsumer := null;
      }
    }

    /** `Join`: waits for the consumer, if any. */
    method Join()
      modifies newsConsumer
      ensures newsConsumer != null ==> newsConsumer.joined && newsConsumer.closed == old(newsConsumer.closed)
    {
      if newsConsumer != null {
        newsConsumer.Join();
      }
    }

    /** `Stop`: closes the consumer, if any, then joins it. */
    method Stop()
      modifies newsConsumer
      ensures newsConsumer != null ==> newsConsumer.closed && newsConsumer.joined
    {
      if newsConsumer != null {
        newsConsumer.Close();
      }
      Join();
    }
  }
}
