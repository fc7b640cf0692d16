/**
 * Station-record enrichment: the loop that turns the METAR elements of the feed
 * into the `conditionDict` table, keyed by station identifier, in map.py (flight
 * categories, wind, lightning, temperatures) and in temp.py (temperatures only).
 *
 * A METAR is modelled as the record of the children the loop reads, each of which
 * may be absent; the XML parsing and the `int(...)`/`float(...)` conversions of
 * the element texts are not part of this model.
 */
module Enrichment {
  import opened Options
  import opened Units
  import opened Metrics
  import opened Text
  import opened Settings

  datatype Metar = Metar(
    stationId: string,
    flightCategory: Option<string>,
    windGustKt: Option<int>,
    windSpeedKt: Option<int>,
    rawText: Option<string>,
    tempC: Option<real>,
    dewpointC: Option<real>
  )

  /** A `conditionDict` entry of map.py. */
  datatype Station = Station(
    flightCategory: string,
    windSpeed: int,
    windGust: bool,
    lightning: bool,
    tempC: real,
    dewpointC: real,
    metrics: Derived
  )

  /** A `conditionDict` entry of temp.py. */
  datatype TempStation = TempStation(tempC: real, dewpointC: real, metrics: Derived)

  /** Marker text in the raw report that signals lightning. */
  const Lightning: string := "LTG"

  /**
   * The map.py entry for one METAR, or None when the report has no flight
   * category (the loop skips it). Absent fields default to 0 / false.
   */
  function Enrich(s: Settings, fs: Formulas, m: Metar): (r: Option<Station>)
    ensures r.None? <==> m.flightCategory.None?
    ensures r.Some? ==> r.value.flightCategory == m.flightCategory.value
    ensures r.Some? ==> (r.value.windGust <==>
              m.windGustKt.Some? && (s.alwaysBlinkForGusts || m.windGustKt.value > s.windBlinkThreshold))
    ensures r.Some? ==> (r.value.lightning <==> m.rawText.Some? && Contains(m.rawText.value, Lightning))
    ensures r.Some? ==> r.value.windSpeed == m.windSpeedKt.GetOr(0)
    ensures r.Some? ==> r.value.tempC == m.tempC.GetOr(0.0) && r.value.dewpointC == m.dewpointC.GetOr(0.0)
    ensures r.Some? ==> r.value.metrics == Derive(fs, r.value.tempC, r.value.dewpointC)
  {
    if m.flightCategory.None? then None
    else
      var tempC := m.tempC.GetOr(0.0);
      var dewpointC := m.dewpointC.GetOr(0.0);
      var windGust := match m.windGustKt
        case None => false
        case Some(gust) => s.alwaysBlinkForGusts || gust > s.windBlinkThreshold;
      var lightning := match m.rawText
        case None => false
        case Some(text) => Find(text, Lightning) != -1;
      Some(Station(m.flightCategory.value, m.windSpeedKt.GetOr(0), windGust, lightning,
                   tempC, dewpointC, Derive(fs, tempC, dewpointC)))
  }

  /** The temp.py entry for one METAR: every report gets one; absent temperatures default to 0. */
  function EnrichTemp(fs: Formulas, m: Metar): (st: TempStation)
    ensures st.tempC == m.tempC.GetOr(0.0) && st.dewpointC == m.dewpointC.GetOr(0.0)
    ensures st.metrics == Derive(fs, st.tempC, st.dewpointC)
  {
    var tempC := m.tempC.GetOr(0.0);
    var dewpointC := m.dewpointC.GetOr(0.0);
    TempStation(tempC, dewpointC, Derive(fs, tempC, dewpointC))
  }

  function EnrichFn(s: Settings, fs: Formulas): Metar -> Option<Station>
  {
    m => Enrich(s, fs, m)
  }

  function EnrichTempFn(fs: Formulas): Metar -> Option<TempStation>
  {
    m => Some(EnrichTemp(fs, m))
  }

  /**
   * The table after the loop has processed `metars` in order: each report that
   * `enrich` keeps is stored under its station identifier, overwriting an
   * earlier entry for the same station.
   */
  function Collect<V>(metars: seq<Metar>, enrich: Metar -> Option<V>): map<string, V>
    decreases |metars|
  {
    if metars == [] then map[]
    else
      var before := Collect(metars[..|metars| - 1], enrich);
      var m := metars[|metars| - 1];
      match enrich(m)
      case None => before
      case Some(entry) => before[m.stationId := entry]
  }

  /** The report `m` is for station `id` and is kept. */
  predicate Kept<V>(m: Metar, id: string, enrich: Metar -> Option<V>)
  {
    m.stationId == id && enrich(m).Some?
  }

  /** A station has an entry exactly when some report for it is kept. */
  lemma {:induction false} CollectKeys<V>(metars: seq<Metar>, enrich: Metar -> Option<V>, id: string)
    ensures id in Collect(metars, enrich) <==> exists i :: 0 <= i < |metars| && Kept(metars[i], id, enrich)
    decreases |metars|
  {
    if metars != [] {
      var n := |metars| - 1;
      var prefix := metars[..n];
      CollectKeys(prefix, enrich, id);
      assert forall i :: 0 <= i < n ==> prefix[i] == metars[i];
      if Kept(metars[n], id, enrich) {
        assert id in Collect(metars, enrich);
      } else {
        assert id in Collect(metars, enrich) <==> id in Collect(prefix, enrich);
      }
    }
  }

  /** A station's entry is made from the last of its reports that is kept. */
  lemma {:induction false} CollectLatest<V>(metars: seq<Metar>, enrich: Metar -> Option<V>, id: string, i: int)
    requires 0 <= i < |metars| && Kept(metars[i], id, enrich)
    requires forall j :: i < j < |metars| ==> !Kept(metars[j], id, enrich)
    ensures id in Collect(metars, enrich) && Collect(metars, enrich)[id] == enrich(metars[i]).value
    decreases |metars|
  {
    var n := |metars| - 1;
    if i < n {
      var prefix := metars[..n];
      assert forall j :: i < j < n ==> prefix[j] == metars[j];
      CollectLatest(prefix, enrich, id, i);
      assert !Kept(metars[n], id, enrich);
    }
  }

  /** The map.py table built from the whole feed. */
  function Conditions(s: Settings, fs: Formulas, metars: seq<Metar>): map<string, Station>
  {
    Collect(metars, EnrichFn(s, fs))
  }

  /** The temp.py table built from the whole feed. */
  function TempConditions(fs: Formulas, metars: seq<Metar>): map<string, TempStation>
  {
    Collect(metars, EnrichTempFn(fs))
  }

  /** map.py: a station is in the table exactly when one of its reports has a flight category. */
  lemma ConditionsKeys(s: Settings, fs: Formulas, metars: seq<Metar>, id: string)
    ensures id in Conditions(s, fs, metars) <==>
            exists i :: 0 <= i < |metars| && metars[i].stationId == id && metars[i].flightCategory.Some?
  {
    CollectKeys(metars, EnrichFn(s, fs), id);
    assert forall i :: 0 <= i < |metars| ==>
      (Kept(metars[i], id, EnrichFn(s, fs)) <==> metars[i].stationId == id && metars[i].flightCategory.Some?);
  }

  /** temp.py: every station that has a report is in the table. */
  lemma TempConditionsKeys(fs: Formulas, metars: seq<Metar>, id: string)
    ensures id in TempConditions(fs, metars) <==> exists i :: 0 <= i < |metars| && metars[i].stationId == id
  {
    CollectKeys(metars, EnrichTempFn(fs), id);
    assert forall i :: 0 <= i < |metars| ==>
      (Kept(metars[i], id, EnrichTempFn(fs)) <==> metars[i].stationId == id);
  }

  /** Every entry of the table is the enrichment of one of the station's kept reports. */
  lemma {:induction false} CollectSource<V>(metars: seq<Metar>, enrich: Metar -> Option<V>, id: string)
    requires id in Collect(metars, enrich)
    ensures exists i :: 0 <= i < |metars| && Kept(metars[i], id, enrich) &&
                        enrich(metars[i]).value == Collect(metars, enrich)[id]
    decreases |metars|
  {
    var n := |metars| - 1;
    var prefix := metars[..n];
    if Kept(metars[n], id, enrich) {
      assert Collect(metars, enrich)[id] == enrich(metars[n]).value;
    } else {
      assert id in Collect(prefix, enrich);
      CollectSource(prefix, enrich, id);
      var i :| 0 <= i < n && Kept(prefix[i], id, enrich) && enrich(prefix[i]).value == Collect(prefix, enrich)[id];
      assert prefix[i] == metars[i];
    }
  }

  /** temp.py: the heat index stored for a station is a sentinel outside [70, 115] degrees F. */
  lemma TempSentinels(fs: Formulas, metars: seq<Metar>, id: string)
    requires id in TempConditions(fs, metars)
    ensures var st := TempConditions(fs, metars)[id];
            (CtoF(st.tempC) < 70.0 ==> st.metrics.heatIndex == BelowRangeSentinel) &&
            (CtoF(st.tempC) > 115.0 ==> st.metrics.heatIndex == AboveRangeSentinel)
  {
    CollectSource(metars, EnrichTempFn(fs), id);
    var i :| 0 <= i < |metars| && Kept(metars[i], id, EnrichTempFn(fs)) &&
             EnrichTempFn(fs)(metars[i]).value == TempConditions(fs, metars)[id];
    assert TempConditions(fs, metars)[id] == EnrichTemp(fs, metars[i]);
  }

  /**
   * The map.py loop: walks the feed once, skipping reports without a flight
   * category and filling in defaults for absent fields.
   */
  method BuildConditions(s: Settings, fs: Formulas, metars: seq<Metar>) returns (d: map<string, Station>)
    ensures d == Conditions(s, fs, metars)
  {
    d := map[];
    for k := 0 to |metars|
      invariant d == Collect(metars[..k], EnrichFn(s, fs))
    {
      var m := metars[k];
      assert metars[..k + 1][..k] == metars[..k];
      if m.flightCategory.None? {
        continue;
      }
      var windGust := false;
      var windSpeed := 0;
      var lightning := false;
      var tempC := 0.0;
      var dewpointC := 0.0;
      if m.windGustKt.Some? {
        windGust := s.alwaysBlinkForGusts || m.windGustKt.value > s.windBlinkThreshold;
      }
      if m.windSpeedKt.Some? {
        windSpeed := m.windSpeedKt.value;
      }
      if m.rawText.Some? {
        lightning := Find(m.rawText.value, Lightning) != -1;
      }
      if m.tempC.Some? {
        tempC := m.tempC.value;
      }
      if m.dewpointC.Some? {
        dewpointC := m.dewpointC.value;
      }
      var metrics := Derive(fs, tempC, dewpointC);
      d := d[m.stationId := Station(m.flightCategory.value, windSpeed, windGust, lightning, tempC, dewpointC, metrics)];
    }
    assert metars[..|metars|] == metars;
  }

  /** The temp.py loop: every report gets an entry. */
  method BuildTempConditions(fs: Formulas, metars: seq<Metar>) returns (d: map<string, TempStation>)
    ensures d == TempConditions(fs, metars)
  {
    d := map[];
    for k := 0 to |metars|
      invariant d == Collect(metars[..k], EnrichTempFn(fs))
    {
      var m := metars[k];
      assert metars[..k + 1][..k] == metars[..k];
      var tempC := 0.0;
      var dewpointC := 0.0;
      if m.tempC.Some? {
        tempC := m.tempC.value;
      }
      if m.dewpointC.Some? {
        dewpointC := m.dewpointC.value;
      }
      var metrics := Derive(fs, tempC, dewpointC);
      d := d[m.stationId := TempStation(tempC, dewpointC, metrics)];
    }
    assert metars[..|metars|] == metars;
  }
}
