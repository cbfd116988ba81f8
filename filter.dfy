/** server/filter.go: the named admission predicates of the main pipeline. Each returns
    true when the document must be dropped. */
module Filter {
  import opened Util
  import opened Message
  import opened LogBag

  /** What the predicates read besides the document: the clock (`time.Now().Unix()`)
      and the configured expiry window in seconds. */
  datatype FilterEnv = FilterEnv(now: Int64, expire: Int64)

  /** The static domain block list; it is empty. */
  const DomainBlackList: set<string> := {}

  predicate BasicFilter(doc: IndexerDocument)
  {
    if |doc.DocId| == 0 then true else if doc.Epoch <= 0 then true else false
  }

  predicate LocalFilter(doc: IndexerDocument)
  {
    doc.IsLocalNews == "true" && (doc.TextCategory.None? || !IsSport(doc.TextCategory.value))
  }

  predicate DomainFilter(doc: IndexerDocument)
  {
    doc.Domain in DomainBlackList
  }

  /** The age is an `int64` subtraction, which wraps around on overflow. */
  predicate EpochFilter(doc: IndexerDocument, env: FilterEnv)
  {
    Wrap64(env.now - doc.Epoch) > env.expire
  }

  predicate CTypeFilter(doc: IndexerDocument)
  {
    doc.ContentType != "news" && doc.ContentType != "3rd_video"
  }

  predicate CategoryFilter(doc: IndexerDocument)
  {
    if doc.TextCategory.None? then false else HasFirstCategory(doc.TextCategory.value, "Obituary")
  }

  predicate AdultFilter(doc: IndexerDocument)
  {
    doc.IsAdult
  }

  /** The predicates of the registry, one tag each. */
  datatype NewsFilter = Basic | Adult | Local | Domain | Epoch | CType | Category

  /** The registry `newsFilters`: name → predicate. */
  const NewsFilters: map<string, NewsFilter> :=
    map["basic" := Basic, "adult" := Adult, "local" := Local, "domain" := Domain,
        "epoch" := Epoch, "ctype" := CType, "category" := Category]

  predicate Rejects(f: NewsFilter, doc: IndexerDocument, env: FilterEnv)
  {
    match f
    case Basic => BasicFilter(doc)
    case Adult => AdultFilter(doc)
    case Local => LocalFilter(doc)
    case Domain => DomainFilter(doc)
    case Epoch => EpochFilter(doc, env)
    case CType => CTypeFilter(doc)
    case Category => CategoryFilter(doc)
  }

  /** Some registered predicate rejects the document. */
  predicate AnyRejects(doc: IndexerDocument, env: FilterEnv)
  {
    exists name :: name in NewsFilters && Rejects(NewsFilters[name], doc, env)
  }

  /** The age test is the plain comparison `now - epoch > expire` whenever the
      subtraction cannot overflow, e.g. for non-negative clock and epoch. */
  lemma EpochFilterWithoutOverflow(doc: IndexerDocument, env: FilterEnv)
    requires 0 <= doc.Epoch && 0 <= env.now
    ensures EpochFilter(doc, env) <==> env.now - doc.Epoch > env.expire
  {
  }

  /** A very old (negative) epoch can make the age wrap around and pass the age test;
      such a document is still rejected by the basic predicate. */
  lemma EpochFilterWraps()
    ensures var doc := NewIndexerDocumentFromCpp(CppDocument("A1", -0x8000_0000_0000_0000, "", "", "", "", "",
                                                             "", [], [], [], map[], None));
      var env := FilterEnv(1, 86400);
      !EpochFilter(doc, env) && BasicFilter(doc) && AnyRejects(doc, env)
  {
    var doc := NewIndexerDocumentFromCpp(CppDocument("A1", -0x8000_0000_0000_0000, "", "", "", "", "",
                                                     "", [], [], [], map[], None));
    assert Rejects(NewsFilters["basic"], doc, FilterEnv(1, 86400));
  }

  /** The pipeline's filter verdict on a transformed wire document, as one condition
      on the wire fields. The adult and domain predicates never fire on such a
      document: the transformer leaves `IsAdult` false and the block list is empty. */
  lemma {:induction false} FilterVerdictOnWire(w: CppDocument, env: FilterEnv)
    ensures var doc := NewIndexerDocumentFromCpp(w);
      AnyRejects(doc, env) <==>
        || |w.DocId| == 0 || w.Epoch <= 0
        || Wrap64(env.now - w.Epoch) > env.expire
        || (|w.ContentType| > 0 && w.ContentType != "news" && w.ContentType != "3rd_video")
        || (w.IsLocalNews == "true" && (w.TextCategory.None? || "Sports" !in w.TextCategory.value.FirstCategory))
        || (w.TextCategory.Some? && "Obituary" in w.TextCategory.value.FirstCategory)
  {
    var doc := NewIndexerDocumentFromCpp(w);
    if BasicFilter(doc) { assert Rejects(NewsFilters["basic"], doc, env); }
    if EpochFilter(doc, env) { assert Rejects(NewsFilters["epoch"], doc, env); }
    if CTypeFilter(doc) { assert Rejects(NewsFilters["ctype"], doc, env); }
    if LocalFilter(doc) { assert Rejects(NewsFilters["local"], doc, env); }
    if CategoryFilter(doc) { assert Rejects(NewsFilters["category"], doc, env); }
  }

  /** An empty id or a non-positive epoch is rejected whatever the other predicates
      say. */
  lemma BasicAlwaysRejects(doc: IndexerDocument, env: FilterEnv)
    requires |doc.DocId| == 0 || doc.Epoch <= 0
    ensures AnyRejects(doc, env)
  {
    assert Rejects(NewsFilters["basic"], doc, env);
  }

  /** `FilterNews`: tries the registered predicates in Go's random map order and stops
      at the first that fires, logging its name under "filter". Which name is logged
      when several fire is not specified. */
  method FilterNews(doc: IndexerDocument, env: FilterEnv, l: LogInfo) returns (rejected: bool)
    modifies l
    ensures rejected == AnyRejects(doc, env)
    ensures rejected ==> exists name :: name in NewsFilters && Rejects(NewsFilters[name], doc, env)
                                        && l.entries == old(l.entries)["filter" := Text(name)]
    ensures !rejected ==> l.entries == old(l.entries)
  {
    var remaining := NewsFilters.Keys;
    while remaining != {}
      invariant remaining <= NewsFilters.Keys
      invariant forall name :: name in NewsFilters.Keys - remaining ==> !Rejects(NewsFilters[name], doc, env)
      invariant l.entries == old(l.entries)
      decreases remaining
    {
      var name :| name in remaining;
      if Rejects(NewsFilters[name], doc, env) {
        l.Set("filter", Text(name));
        return true;
      }
      remaining := remaining - {name};
    }
    return false;
  }
}
