/** common/data.go: the reference-data snapshot (domain or source id → source quality
    record), its reload, and the reload tickers. */
module SourceData {
  import opened Util

  datatype SourceInfo = SourceInfo(Id: string, Domain: string, SourceTier: int, Quality: int,
                                   Paywall: bool, Compatibility: string)

  /** `GetSourceInfo` on a given snapshot: nothing for an empty domain, otherwise the
      snapshot's entry, if any. */
  function Lookup(snapshot: map<string, SourceInfo>, domain: string): (r: Option<SourceInfo>)
    ensures |domain| == 0 ==> r.None?
    ensures |domain| > 0 ==> (r.Some? <==> domain in snapshot)
    ensures r.Some? ==> domain in snapshot && r.value == snapshot[domain]
  {
    if |domain| > 0 && domain in snapshot then Some(snapshot[domain]) else None
  }

  /** A cursor row that decoded (Some) is stored under `k`. */
  predicate StoresUnder(row: Option<SourceInfo>, k: string)
  {
    row.Some? && (row.value.Id == k || row.value.Domain == k)
  }

  /** The map the load loop builds from the cursor rows, in cursor order; None stands
      for a row that failed to decode. */
  function SourceMapOf(rows: seq<Option<SourceInfo>>): map<string, SourceInfo>
    decreases |rows|
  {
    if |rows| == 0 then map[]
    else
      var m := SourceMapOf(rows[..|rows| - 1]);
      match rows[|rows| - 1]
      case None => m
      case Some(info) => m[info.Id := info][info.Domain := info]
  }

  /** A key is in the map iff some decoded row is stored under it. */
  lemma {:induction false} SourceMapKeys(rows: seq<Option<SourceInfo>>, k: string)
    ensures k in SourceMapOf(rows) <==> exists i :: 0 <= i < |rows| && StoresUnder(rows[i], k)
    decreases |rows|
  {
    if |rows| > 0 {
      var init := rows[..|rows| - 1];
      SourceMapKeys(init, k);
      if exists i :: 0 <= i < |rows| && StoresUnder(rows[i], k) {
        var i :| 0 <= i < |rows| && StoresUnder(rows[i], k);
        if i < |rows| - 1 {
          assert init[i] == rows[i];
        }
      }
      if exists i :: 0 <= i < |init| && StoresUnder(init[i], k) {
        var i :| 0 <= i < |init| && StoresUnder(init[i], k);
        assert rows[i] == init[i];
      }
    }
  }

  /** The value under a key is the last decoded row stored under it: later rows
      overwrite earlier ones, and rows that failed to decode change nothing. */
  lemma {:induction false} SourceMapLastWins(rows: seq<Option<SourceInfo>>, k: string, i: nat)
    requires i < |rows| && StoresUnder(rows[i], k)
    requires forall j :: i < j < |rows| ==> !StoresUnder(rows[j], k)
    ensures k in SourceMapOf(rows) && SourceMapOf(rows)[k] == rows[i].value
    decreases |rows|
  {
    var init := rows[..|rows| - 1];
    if i < |rows| - 1 {
      forall j | i < j < |init| ensures !StoresUnder(init[j], k) {
        assert init[j] == rows[j];
      }
      assert init[i] == rows[i];
      SourceMapLastWins(init, k, i);
    }
  }

  /** The loop of `loadSourceInfo` that fills the new map from the cursor. */
  method CollectSourceInfo(rows: seq<Option<SourceInfo>>) returns (m: map<string, SourceInfo>)
    ensures m == SourceMapOf(rows)
    ensures forall k :: k in m <==> exists i :: 0 <= i < |rows| && StoresUnder(rows[i], k)
  {
    m := map[];
    var n := 0;
    while n < |rows|
      invariant n <= |rows|
      invariant m == SourceMapOf(rows[..n])
    {
      assert rows[..n + 1][..n] == rows[..n];
      if rows[n].Some? {
        var info := rows[n].value;
        m := m[info.Id := info];
        m := m[info.Domain := info];
      }
      n := n + 1;
    }
    assert rows[..n] == rows;
    forall k ensures k in m <==> exists i :: 0 <= i < |rows| && StoresUnder(rows[i], k) {
      SourceMapKeys(rows, k);
    }
  }

  /** What the reference-data store answers: a connection, ping, query or cursor error,
      or the rows of the `sourceInfo` collection. */
  datatype MongoLoad =
    | ConnectError(msg: string)
    | PingError(msg: string)
    | FindError(msg: string)
    | CursorError(msg: string)
    | Rows(rows: seq<Option<SourceInfo>>)

  /** A periodic reload timer. */
  class Ticker {
    const name: string
    const intervalMinutes: nat
    var stopped: bool

    constructor (name: string, intervalMinutes: nat)
      ensures this.name == name && this.intervalMinutes == intervalMinutes && !stopped
    {
      this.name := name;
      this.intervalMinutes := intervalMinutes;
      stopped := false;
    }

    method Stop()
      modifies this
      ensures stopped
    {
      stopped := true;
    }
  }

  /** The process-wide snapshot and reload tickers. */
  class SourceStore {
    var sourceMap: map<string, SourceInfo>
    var reloadTickers: seq<Ticker>

    constructor ()
      ensures sourceMap == map[] && reloadTickers == []
    {
      sourceMap := map[];
      reloadTickers := [];
    }

    function GetSourceInfo(domain: string): (r: Option<SourceInfo>)
      reads this
      ensures r == Lookup(sourceMap, domain)
    {
      Lookup(sourceMap, domain)
    }

    /** `loadSourceInfo`: on any store error the old snapshot stays; otherwise the new
        map is built aside and swapped in whole. */
    method LoadSourceInfo(load: MongoLoad) returns (err: Error)
      modifies this`sourceMap
      ensures load.Rows? ==> err.None? && sourceMap == SourceMapOf(load.rows)
      ensures !load.Rows? ==> err == Some(load.msg) && sourceMap == old(sourceMap)
    {
      match load
      case Rows(rows) =>
        var sourceInfoMap := CollectSourceInfo(rows);
        sourceMap := sourceInfoMap;
        err := None;
      case _ =>
        err := Some(load.msg);
    }

    /** Appends one started ticker for `name`. */
    method RegisterReloader(name: string, intervalMinutes: nat) returns (t: Ticker)
      modifies this`reloadTickers
      ensures fresh(t) && t.name == name && t.intervalMinutes == intervalMinutes && !t.stopped
      ensures reloadTickers == old(reloadTickers) + [t]
    {
      t := new Ticker(name, intervalMinutes);
      reloadTickers := reloadTickers + [t];
    }

    /** `LoadAllDatas`: runs the one loader, then replaces the ticker list by a new list
        holding just the source-info reloader. The loader's error is dropped: the
        goroutine stores it only when the shared error is already non-nil, which it
        never is, so the result is always nil. */
    method LoadAllDatas(load: MongoLoad) returns (err: Error)
      modifies this`sourceMap, this`reloadTickers
      ensures err.None?
      ensures load.Rows? ==> sourceMap == SourceMapOf(load.rows)
      ensures !load.Rows? ==> sourceMap == old(sourceMap)
      ensures |reloadTickers| == 1 && fresh(reloadTickers[0])
      ensures reloadTickers[0].name == "source_info" && reloadTickers[0].intervalMinutes == 10
      ensures !reloadTickers[0].stopped
    {
      err := None;
      var ferr := LoadSourceInfo(load);
      if err.Some? {
        err := ferr;
      }
      reloadTickers := [];
      var _ := RegisterReloader("source_info", 10);
    }

    /** `LoadAllDatas` as evidently intended, with the loader's own error checked
        (`if ferr != nil`): a failed load is reported, a successful one is not. */
    method LoadAllDatasReported(load: MongoLoad) returns (err: Error)
      modifies this`sourceMap, this`reloadTickers
      ensures err.None? <==> load.Rows?
      ensures !load.Rows? ==> err == Some(load.msg) && sourceMap == old(sourceMap)
      ensures load.Rows? ==> sourceMap == SourceMapOf(load.rows)
      ensures |reloadTickers| == 1 && fresh(reloadTickers[0])
      ensures reloadTickers[0].name == "source_info" && reloadTickers[0].intervalMinutes == 10
      ensures !reloadTickers[0].stopped
    {
      err := None;
      var ferr := LoadSourceInfo(load);
      if ferr.Some? {
        err := ferr;
      }
      reloadTickers := [];
      var _ := RegisterReloader("source_info", 10);
    }

    /** Stops every registered ticker and empties the list. */
    method ReleaseAllDatas()
      modifies this`reloadTickers, set t | t in reloadTickers
      ensures reloadTickers == []
      ensures forall t :: t in old(reloadTickers) ==> t.stopped
    {
      if |reloadTickers| > 0 {
        var i := 0;
        while i < |reloadTickers|
          invariant i <= |reloadTickers|
          invariant reloadTickers == old(reloadTickers)
          invariant forall j :: 0 <= j < i ==> reloadTickers[j].stopped
          modifies set t | t in reloadTickers
        {
          reloadTickers[i].Stop();
          i := i + 1;
        }
        reloadTickers := [];
      }
    }
  }
}
