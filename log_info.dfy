/** common/log.go: the per-message key/value bag that pipeline stages fill and that is
    printed as one line when the message is done. */
module LogBag {
  import opened Util

  /** The values the pipeline stores: strings, integers and lists of names. */
  datatype LogValue = Text(s: string) | Number(n: int) | Names(xs: seq<string>)

  /** Go's `%v` rendering of a stored value. */
  function Format(v: LogValue): string
  {
    match v
    case Text(s) => s
    case Number(n) => Decimal(n)
    case Names(xs) => "[" + Join(xs, " ") + "]"
  }

  /** One "k=v" segment of the printed line. */
  function Segment(k: string, v: LogValue): string
  {
    k + "=" + Format(v)
  }

  /** The segments for the keys in `order`. */
  function Segments(order: seq<string>, entries: map<string, LogValue>): (r: seq<string>)
    requires forall k :: k in order ==> k in entries
    ensures |r| == |order|
    ensures forall i :: 0 <= i < |order| ==> r[i] == Segment(order[i], entries[order[i]])
    decreases |order|
  {
    if |order| == 0 then [] else [Segment(order[0], entries[order[0]])] + Segments(order[1..], entries)
  }

  /** The bag. Go embeds a `sync.Map`, so concurrent stores are safe; here stores are
      sequential and the bag is a map-valued field. */
  class LogInfo {
    var entries: map<string, LogValue>

    constructor ()
      ensures entries == map[]
    {
      entries := map[];
    }

    /** Stores `value` under `key`, overwriting any previous value and leaving every
        other key as it was. */
    method Set(key: string, value: LogValue)
      modifies this
      ensures entries == old(entries)[key := value]
      ensures forall k :: k != key && k in old(entries) ==> k in entries && entries[k] == old(entries)[k]
      ensures entries.Keys == old(entries).Keys + {key}
    {
      entries := entries[key := value];
    }
  }

  /** `LogInfo.ToString`: one "k=v" segment per stored key, joined by single spaces, in
      the unspecified order in which the map is ranged over; "" for a nil bag. */
  method ToString(l: LogInfo?) returns (s: string)
    ensures l == null ==> s == ""
    ensures l != null ==> exists order :: Enumerates(order, l.entries.Keys)
                                         && s == Join(Segments(order, l.entries), " ")
  {
    if l == null {
      return "";
    }
    var splits: seq<string> := [];
    ghost var order: seq<string> := [];
    var remaining := l.entries.Keys;
    while remaining != {}
      invariant remaining <= l.entries.Keys
      invariant Enumerates(order, l.entries.Keys - remaining)
      invariant splits == Segments(order, l.entries)
      decreases remaining
    {
      var k :| k in remaining;
      EnumeratesVisit(order, l.entries.Keys, remaining, k);
      SegmentsAppend(order, k, l.entries);
      splits := splits + [Segment(k, l.entries[k])];
      order := order + [k];
      remaining := remaining - {k};
    }
    s := Join(splits, " ");
    assert Enumerates(order, l.entries.Keys);
  }

  lemma {:induction false} SegmentsAppend(order: seq<string>, k: string, entries: map<string, LogValue>)
    requires forall x :: x in order ==> x in entries
    requires k in entries
    ensures Segments(order + [k], entries) == Segments(order, entries) + [Segment(k, entries[k])]
  {
  }

  /** An empty bag prints as the empty line. */
  lemma EmptyBagPrintsNothing(order: seq<string>, entries: map<string, LogValue>)
    requires |entries| == 0 && Enumerates(order, entries.Keys)
    ensures Join(Segments(order, entries), " ") == ""
  {
    assert forall k :: k !in entries;
  }

  /** When no key and no rendered value holds a space, the printed line splits back
      into exactly one "k=v" segment per stored key. */
  lemma {:induction false} LineSplitsIntoSegments(order: seq<string>, entries: map<string, LogValue>)
    requires Enumerates(order, entries.Keys)
    requires |order| >= 1
    requires forall k :: k in entries ==> ' ' !in k && ' ' !in Format(entries[k])
    ensures Split(Join(Segments(order, entries), " "), ' ') == Segments(order, entries)
  {
    var segs := Segments(order, entries);
    forall i | 0 <= i < |segs| ensures ' ' !in segs[i] {
      assert order[i] in order;
      assert segs[i] == order[i] + "=" + Format(entries[order[i]]);
    }
    JoinSplit(segs, ' ');
  }
}
