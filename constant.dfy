/** common/constant.go: matching modes, geographic scopes and the space sentinel. */
module Constant {
  import opened Util

  // One `iota` block: the two modes take 0 and 1, so the scopes continue from 2.
  const ModeStrict: int := 0
  const ModeRelax: int := 1
  const ScopeGlobal: int := 2
  const ScopeState: int := 3
  const ScopeDma: int := 4
  const ScopeCounty: int := 5
  const ScopeCity: int := 6
  const ScopeZip: int := 7
  const ScopeNeighborhood: int := 8

  /** The geo-tag type → scope table. */
  const GeoTypeToScopeMap: map<string, int> :=
    map["state" := ScopeState, "county" := ScopeCounty, "city" := ScopeCity,
        "poi" := ScopeNeighborhood, "area" := ScopeCity]

  /** The scope of a geo-tag type; a type missing from the table is global. */
  function GeoTypeToScope(geoType: string): (scope: int)
    ensures scope in {ScopeGlobal, ScopeState, ScopeCounty, ScopeCity, ScopeNeighborhood}
    ensures scope != ScopeDma && scope != ScopeZip
    ensures scope == ScopeGlobal <==> geoType !in {"state", "county", "city", "poi", "area"}
    ensures scope == ScopeCity <==> geoType in {"city", "area"}
    ensures scope == ScopeState <==> geoType == "state"
    ensures scope == ScopeCounty <==> geoType == "county"
    ensures scope == ScopeNeighborhood <==> geoType == "poi"
  {
    if geoType in GeoTypeToScopeMap then GeoTypeToScopeMap[geoType] else ScopeGlobal
  }

  /** The two-character marker that stands for a space in stored tags. */
  const SpaceSentinel: string := "^^"

  /** Every space of `raw` becomes "^^"; nothing else changes. */
  function ReplaceSpace(raw: string): (r: string)
    ensures ' ' !in r
    ensures |r| == |raw| + CountChar(raw, ' ')
    ensures ' ' !in raw ==> r == raw
  {
    ReplaceSpaceFacts(raw);
    ReplaceAll(raw, " ", SpaceSentinel)
  }

  lemma {:induction false} ReplaceSpaceFacts(raw: string)
    ensures ' ' !in ReplaceAll(raw, " ", "^^")
    ensures |ReplaceAll(raw, " ", "^^")| == |raw| + CountChar(raw, ' ')
    ensures ' ' !in raw ==> ReplaceAll(raw, " ", "^^") == raw
    decreases |raw|
  {
    if |raw| > 0 {
      ReplaceSpaceFacts(raw[1..]);
      if raw[0] != ' ' {
        assert raw == [raw[0]] + raw[1..];
      }
    }
  }

  /** Turning the markers back into spaces restores a text that had no '^' of its own,
      which is how the channel ranker reads keywords back. */
  lemma {:induction false} ReplaceSpaceRoundTrip(raw: string)
    requires '^' !in raw
    ensures ReplaceAll(ReplaceSpace(raw), "^^", " ") == raw
    decreases |raw|
  {
    if |raw| > 0 {
      var rest := ReplaceSpace(raw[1..]);
      ReplaceSpaceRoundTrip(raw[1..]);
      if raw[0] == ' ' {
        assert ReplaceSpace(raw) == "^^" + rest;
        assert ("^^" + rest)[2..] == rest;
      } else {
        assert ReplaceSpace(raw) == [raw[0]] + rest;
        assert ([raw[0]] + rest)[1..] == rest;
        if |rest| >= 1 {
          assert ([raw[0]] + rest)[..2][0] == raw[0] != "^^"[0];
        }
        assert raw == [raw[0]] + raw[1..];
      }
    }
  }
}
