/** emitor/doc_emitor.go: the emitter registry, built once from the configuration, and
    `EmitNews`, which runs the registered emitters one after the other. */
module DocEmitor {
  import opened Util
  import opened Message
  import opened LogBag
  import EsEmitor

  /** The registered emitters: the live index writer, the mock that only logs, and the
      trace notifier. */
  datatype Emitor =
    | EsIndexer(index: string)
    | MockEs(indexPattern: string)
    | Trace(url: string, event: string)

  /** The configuration read by the registry. */
  datatype EmitConfig = EmitConfig(esEnable: bool, esIndex: string,
                                   traceEnable: bool, traceUrl: string, traceEvent: string)

  /** The registry built from a configuration. */
  function NewsEmitorsFor(conf: EmitConfig): map<string, Emitor>
  {
    var es := if conf.esEnable then map["es" := EsIndexer(conf.esIndex)]
              else map["mock_es" := MockEs(conf.esIndex)];
    if conf.traceEnable then es["trace" := Trace(conf.traceUrl, conf.traceEvent)] else es
  }

  /** Exactly one of "es" and "mock_es" is registered, "trace" iff tracing is enabled,
      and nothing else; in particular the new-document list emitter is never registered. */
  lemma RegistryShape(conf: EmitConfig)
    ensures var m := NewsEmitorsFor(conf);
      && ("es" in m <==> conf.esEnable) && ("mock_es" in m <==> !conf.esEnable)
      && ("trace" in m <==> conf.traceEnable)
      && m.Keys <= {"es", "mock_es", "trace"}
      && |m| == if conf.traceEnable then 2 else 1
  {
    var m := NewsEmitorsFor(conf);
    if conf.esEnable {
      if conf.traceEnable {
        assert m.Keys == {"es", "trace"};
      } else {
        assert m.Keys == {"es"};
      }
    } else {
      if conf.traceEnable {
        assert m.Keys == {"mock_es", "trace"};
      } else {
        assert m.Keys == {"mock_es"};
      }
    }
  }

  /** The once-initialised registry. */
  class EmitorRegistry {
    var initialized: bool
    var newsEmitors: map<string, Emitor>

    constructor ()
      ensures !initialized && newsEmitors == map[]
    {
      initialized := false;
      newsEmitors := map[];
    }

    /** `getNewsEmitors`: the first call builds the registry from the configuration it
        sees; every later call returns that same registry, whatever the configuration. */
    method GetNewsEmitors(conf: EmitConfig) returns (m: map<string, Emitor>)
      modifies this
      ensures initialized
      ensures !old(initialized) ==> newsEmitors == NewsEmitorsFor(conf)
      ensures old(initialized) ==> newsEmitors == old(newsEmitors)
      ensures m == newsEmitors
    {
      if !initialized {
        newsEmitors := NewsEmitorsFor(conf);
        initialized := true;
      }
      m := newsEmitors;
    }
  }

  /** What the outside world answers while one document is emitted: the clock, the JSON
      encoder, the index service's reply and the trace request's error. */
  datatype SinkIo = SinkIo(nowMs: int, encode: EsDocument -> Encoded, esReply: EsEmitor.EsReply,
                           traceErr: Error)

  type Encoded = EsEmitor.Encoded

  /** The error an emitter may return for `doc`. */
  ghost predicate EmitOutcome(e: Emitor, doc: IndexerDocument, io: SinkIo, err: Error)
    requires doc.TextCategory.Some?
  {
    match e
    case EsIndexer(index) =>
      exists d :: EsEmitor.EsDocOf(doc, false, io.nowMs, d) && err == EsEmitor.DoIndexError(io.encode(d), io.esReply)
    case MockEs(_) =>
      exists d :: EsEmitor.EsDocOf(doc, false, io.nowMs, d)
                  && err == (if io.encode(d).EncodeError? then Some(io.encode(d).msg) else None)
    case Trace(_, _) => err == io.traceErr
  }

  /** The log keys the emitters write. */
  const EmitKeys: set<string> := {"es_index", "es_doc", "es_status", "es_version"}

  /** Every log key outside `EmitKeys` and `extra` is as it was. */
  ghost predicate KeepsOthers(before: map<string, LogValue>, after: map<string, LogValue>, extra: set<string>)
  {
    forall k :: k !in EmitKeys && k !in extra ==>
      (k in after <==> k in before) && (k in before ==> after[k] == before[k])
  }

  /** Runs one emitter. */
  method RunEmitor(e: Emitor, doc: IndexerDocument, io: SinkIo, l: LogInfo) returns (err: Error)
    requires doc.TextCategory.Some?
    modifies l
    ensures EmitOutcome(e, doc, io, err)
    ensures KeepsOthers(old(l.entries), l.entries, {})
  {
    match e
    case EsIndexer(index) =>
      err := EsEmitor.IndexNews(doc, false, index, io.nowMs, io.encode, io.esReply, l);
    case MockEs(pattern) =>
      err := EsEmitor.MockEsEmit(doc, pattern, io.nowMs, io.encode, l);
    case Trace(_, _) =>
      err := io.traceErr;
  }

  /** The emitters named by `dests` ran in that order: all but the last returned nil,
      and the last returned `err` (nil when none ran). */
  ghost predicate EmitRun(emitors: map<string, Emitor>, doc: IndexerDocument, io: SinkIo,
                          dests: seq<string>, err: Error)
    requires doc.TextCategory.Some?
  {
    && (forall d :: d in dests ==> d in emitors)
    && (forall i :: 0 <= i < |dests| - 1 ==> EmitOutcome(emitors[dests[i]], doc, io, None))
    && (|dests| > 0 ==> EmitOutcome(emitors[dests[|dests| - 1]], doc, io, err))
    && (|dests| == 0 ==> err.None?)
  }

  /** A run that so far met no error, extended by one more emitter. */
  lemma EmitRunStep(emitors: map<string, Emitor>, doc: IndexerDocument, io: SinkIo,
                    dests: seq<string>, name: string, err: Error)
    requires doc.TextCategory.Some?
    requires EmitRun(emitors, doc, io, dests, None)
    requires name in emitors && EmitOutcome(emitors[name], doc, io, err)
    ensures EmitRun(emitors, doc, io, dests + [name], err)
  {
    var ds := dests + [name];
    forall i | 0 <= i < |ds| - 1 ensures EmitOutcome(emitors[ds[i]], doc, io, None) {
      assert ds[i] == dests[i];
    }
    assert forall d :: d in ds ==> d in dests || d == name;
  }

  /** The loop of `EmitNews` over a registry: the names in the order run, and the
      error that ended it. */
  method RunAll(emitors: map<string, Emitor>, doc: IndexerDocument, io: SinkIo, l: LogInfo)
    returns (dests: seq<string>, err: Error)
    requires doc.TextCategory.Some?
    modifies l
    ensures exists order :: Enumerates(order, emitors.Keys) && |dests| <= |order| && dests == order[..|dests|]
                            && (err.None? ==> dests == order)
    ensures EmitRun(emitors, doc, io, dests, err)
    ensures KeepsOthers(old(l.entries), l.entries, {})
  {
    dests := [];
    var remaining := emitors.Keys;
    err := None;
    while remaining != {}
      invariant remaining <= emitors.Keys
      invariant Enumerates(dests, emitors.Keys - remaining)
      invariant EmitRun(emitors, doc, io, dests, None)
      invariant KeepsOthers(old(l.entries), l.entries, {})
      decreases remaining
    {
      var name :| name in remaining;
      EnumeratesVisit(dests, emitors.Keys, remaining, name);
      var e := RunEmitor(emitors[name], doc, io, l);
      EmitRunStep(emitors, doc, io, dests, name, e);
      dests := dests + [name];
      remaining := remaining - {name};
      if e.Some? {
        err := e;
        EmittedPrefix(dests, remaining, emitors.Keys);
        return;
      }
    }
    assert dests == dests[..|dests|];
  }

  /** What `EmitNews` leaves behind: "dests" lists, in run order, a prefix of some
      enumeration of the registry, every emitter of it but the last returned nil, the
      last returned `err`, and a nil result means every registered emitter ran. */
  ghost predicate Emitted(emitors: map<string, Emitor>, doc: IndexerDocument, io: SinkIo,
                          entries: map<string, LogValue>, err: Error)
    requires doc.TextCategory.Some?
  {
    && "dests" in entries
    && exists order, dests ::
      && Enumerates(order, emitors.Keys)
      && |dests| <= |order| && dests == order[..|dests|]
      && entries["dests"] == Names(dests)
      && EmitRun(emitors, doc, io, dests, err)
      && (err.None? ==> dests == order)
  }

  /** `EmitNews`: runs the registered emitters in Go's random map order, appending each
      name to the destinations after its call, and returns the first error at once
      without running the rest. The destinations are logged under "dests" on every
      path. */
  method EmitNews(registry: EmitorRegistry, conf: EmitConfig, doc: IndexerDocument, io: SinkIo, l: LogInfo)
    returns (err: Error)
    requires doc.TextCategory.Some?
    modifies registry, l
    ensures registry.initialized
    ensures !old(registry.initialized) ==> registry.newsEmitors == NewsEmitorsFor(conf)
    ensures old(registry.initialized) ==> registry.newsEmitors == old(registry.newsEmitors)
    ensures Emitted(registry.newsEmitors, doc, io, l.entries, err)
    ensures KeepsOthers(old(l.entries), l.entries, {"dests"})
  {
    var emitors := registry.GetNewsEmitors(conf);
    var dests;
    dests, err := RunAll(emitors, doc, io, l);
    l.Set("dests", Names(dests));
  }

  /** A nil result of `EmitNews` means that every registered emitter ran and returned
      nil. */
  lemma EmitSucceededAll(emitors: map<string, Emitor>, doc: IndexerDocument, io: SinkIo,
                         entries: map<string, LogValue>, name: string)
    requires doc.TextCategory.Some?
    requires Emitted(emitors, doc, io, entries, None)
    requires name in emitors
    ensures EmitOutcome(emitors[name], doc, io, None)
    ensures name in entries["dests"].xs
  {
    var order, dests :| && Enumerates(order, emitors.Keys)
      && |dests| <= |order| && dests == order[..|dests|]
      && entries["dests"] == Names(dests)
      && EmitRun(emitors, doc, io, dests, None)
      && dests == order;
    var i :| 0 <= i < |dests| && dests[i] == name;
    if i < |dests| - 1 {
    } else {
      assert dests[|dests| - 1] == name;
    }
  }

  /** The destinations visited so far extend to an enumeration of all registered names. */
  lemma EmittedPrefix(dests: seq<string>, remaining: set<string>, keys: set<string>)
    requires remaining <= keys && Enumerates(dests, keys - remaining)
    ensures exists order :: Enumerates(order, keys) && |dests| <= |order| && dests == order[..|dests|]
  {
    var rest := ListOf(remaining);
    var order := dests + rest;
    assert order[..|dests|] == dests;
    forall i, j | 0 <= i < j < |order| ensures order[i] != order[j] {
      if j < |dests| {
      } else if i >= |dests| {
        assert order[i] == rest[i - |dests|] && order[j] == rest[j - |dests|];
      } else {
        assert order[i] in dests && order[j] in rest;
      }
    }
    assert Enumerates(order, keys);
  }

  /** Some listing of a finite set, each member once. */
  lemma ListOf(s: set<string>) returns (xs: seq<string>)
    ensures Enumerates(xs, s)
    decreases |s|
  {
    if s == {} {
      xs := [];
    } else {
      var x :| x in s;
      var rest := ListOf(s - {x});
      xs := [x] + rest;
    }
  }
}
