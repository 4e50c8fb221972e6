/** `weather_data_fetcher.py`, `aggregate_weather_data`: the NOAA daily
    readings of every station become one record per reading, with only the
    field its datatype names filled in, and the records are averaged per
    date across stations. Fetching a station's readings (`get_weather_data`,
    which answers [] on any HTTP or decoding failure) is the `fetch`
    parameter; `get_stations` and the HTTP calls are not part of this model. */
module WeatherDataFetcher {
  import opened Wrappers
  import opened Stats
  import opened Aggregate

  /** One element of the station list. */
  datatype Station = Station(id: string, name: Option<string>)

  /** One element of a station's `results`; `kind` is its `datatype`. */
  datatype Entry = Entry(date: string, kind: string, value: real)

  /** The `record` dict built per entry. */
  datatype Record = Record(date: string, station: string, tmax: Option<real>, tmin: Option<real>,
                           awnd: Option<real>, prcp: Option<real>)

  /** One row of the daily average frame. */
  datatype DailyAvg = DailyAvg(date: int, tmax: Option<real>, tmin: Option<real>,
                               awnd: Option<real>, prcp: Option<real>)

  /** `station.get('name', 'Unknown')`. */
  function StationName(s: Station): string {
    if s.name.Some? then s.name.value else "Unknown"
  }

  /** The record of one entry: the date, the station, and the value under
      the field its datatype names (none for any other datatype). */
  function RecordOf(e: Entry, name: string): Record {
    var blank := Record(e.date, name, None, None, None, None);
    if e.kind == "TMAX" then blank.(tmax := Some(e.value))
    else if e.kind == "TMIN" then blank.(tmin := Some(e.value))
    else if e.kind == "AWND" then blank.(awnd := Some(e.value))
    else if e.kind == "PRCP" then blank.(prcp := Some(e.value))
    else blank
  }

  /** The number of fields a record has set. */
  function FieldsSet(r: Record): nat {
    (if r.tmax.Some? then 1 else 0) + (if r.tmin.Some? then 1 else 0) +
    (if r.awnd.Some? then 1 else 0) + (if r.prcp.Some? then 1 else 0)
  }

  /** The four datatypes requested from the API. */
  predicate Known(kind: string) {
    kind == "TMAX" || kind == "TMIN" || kind == "AWND" || kind == "PRCP"
  }

  /** A record keeps its entry's date and its station's name, sets exactly
      one field for a requested datatype and none otherwise, and a field it
      sets holds the entry's value under the datatype of that name. */
  lemma RecordFields(e: Entry, name: string)
    ensures var r := RecordOf(e, name);
      r.date == e.date && r.station == name &&
      FieldsSet(r) == (if Known(e.kind) then 1 else 0) &&
      (r.tmax.Some? ==> e.kind == "TMAX" && r.tmax.value == e.value) &&
      (r.tmin.Some? ==> e.kind == "TMIN" && r.tmin.value == e.value) &&
      (r.awnd.Some? ==> e.kind == "AWND" && r.awnd.value == e.value) &&
      (r.prcp.Some? ==> e.kind == "PRCP" && r.prcp.value == e.value)
  {
  }

  /** The records of one station's entries, in order. */
  function StationRecords(entries: seq<Entry>, name: string): (rs: seq<Record>)
    ensures |rs| == |entries| && forall j :: 0 <= j < |entries| ==> rs[j] == RecordOf(entries[j], name)
  {
    seq(|entries|, j requires 0 <= j < |entries| => RecordOf(entries[j], name))
  }

  /** `all_data` after the loop has seen the given stations. */
  function Records(stations: seq<Station>, fetch: string -> seq<Entry>): seq<Record> {
    if stations == [] then []
    else
      var n := |stations|;
      Records(stations[..n - 1], fetch) + StationRecords(fetch(stations[n - 1].id), StationName(stations[n - 1]))
  }

  /** A record of the list comes from an entry a station returned, and
      every entry every station returned gives one. */
  lemma {:induction false} RecordsOrigin(stations: seq<Station>, fetch: string -> seq<Entry>, r: Record)
    ensures r in Records(stations, fetch) <==>
      exists s, e :: s in stations && e in fetch(s.id) && r == RecordOf(e, StationName(s))
  {
    if r in Records(stations, fetch) {
      RecordFromEntry(stations, fetch, r);
    }
    if exists s, e :: s in stations && e in fetch(s.id) && r == RecordOf(e, StationName(s)) {
      var s, e :| s in stations && e in fetch(s.id) && r == RecordOf(e, StationName(s));
      EntryGivesRecord(stations, fetch, s, e);
    }
  }

  /** A record of the list comes from an entry a station returned. */
  lemma {:induction false} RecordFromEntry(stations: seq<Station>, fetch: string -> seq<Entry>, r: Record)
    requires r in Records(stations, fetch)
    ensures exists s, e :: s in stations && e in fetch(s.id) && r == RecordOf(e, StationName(s))
  {
    var n := |stations|;
    var init := stations[..n - 1];
    var last := stations[n - 1];
    var tail := StationRecords(fetch(last.id), StationName(last));
    assert Records(stations, fetch) == Records(init, fetch) + tail;
    if r in tail {
      var j :| 0 <= j < |tail| && tail[j] == r;
      assert fetch(last.id)[j] in fetch(last.id);
      assert last in stations;
    } else {
      RecordFromEntry(init, fetch, r);
      var s, e :| s in init && e in fetch(s.id) && r == RecordOf(e, StationName(s));
      assert s in stations;
    }
  }

  /** Every entry a station returned gives a record of the list. */
  lemma {:induction false} EntryGivesRecord(stations: seq<Station>, fetch: string -> seq<Entry>, s: Station, e: Entry)
    requires s in stations && e in fetch(s.id)
    ensures RecordOf(e, StationName(s)) in Records(stations, fetch)
  {
    var n := |stations|;
    var init := stations[..n - 1];
    var last := stations[n - 1];
    var tail := StationRecords(fetch(last.id), StationName(last));
    assert Records(stations, fetch) == Records(init, fetch) + tail;
    if s == last {
      var j :| 0 <= j < |fetch(last.id)| && fetch(last.id)[j] == e;
      assert tail[j] == RecordOf(e, StationName(s));
    } else {
      assert stations == init + [last];
      assert s in init;
      EntryGivesRecord(init, fetch, s, e);
    }
  }

  /** The number of entries the stations returned, together. */
  function Answered(stations: seq<Station>, fetch: string -> seq<Entry>): nat {
    if stations == [] then 0
    else Answered(stations[..|stations| - 1], fetch) + |fetch(stations[|stations| - 1].id)|
  }

  /** One record per entry: stations that returned nothing add none. */
  lemma {:induction false} RecordsCount(stations: seq<Station>, fetch: string -> seq<Entry>)
    ensures |Records(stations, fetch)| == Answered(stations, fetch)
  {
    if stations != [] {
      RecordsCount(stations[..|stations| - 1], fetch);
    }
  }

  // ----- per-date means -----

  /** The field selectors the aggregation averages. */
  function TmaxOf(r: Record): Option<real> { r.tmax }
  function TminOf(r: Record): Option<real> { r.tmin }
  function AwndOf(r: Record): Option<real> { r.awnd }
  function PrcpOf(r: Record): Option<real> { r.prcp }

  /** `to_datetime(errors='coerce')` then `dropna(subset=['date'])`: the
      records whose date parses, with their day, in order. */
  function Dated(recs: seq<Record>, parse: string -> Option<int>): (d: seq<(int, Record)>)
    ensures |d| <= |recs|
    decreases |recs|
  {
    if recs == [] then []
    else
      var day := parse(recs[0].date);
      (if day.Some? then [(day.value, recs[0])] else []) + Dated(recs[1..], parse)
  }

  /** One field of the dated records, as (day, value) observations. */
  function FieldObs(dated: seq<(int, Record)>, field: Record -> Option<real>): (xs: seq<Obs>)
    ensures |xs| == |dated| && forall i :: 0 <= i < |dated| ==> xs[i] == Obs(dated[i].0, field(dated[i].1))
  {
    seq(|dated|, i requires 0 <= i < |dated| => Obs(dated[i].0, field(dated[i].1)))
  }

  /** The days of the dated records. */
  function DayList(dated: seq<(int, Record)>): (ks: seq<int>)
    ensures |ks| == |dated| && forall i :: 0 <= i < |dated| ==> ks[i] == dated[i].0
  {
    seq(|dated|, i requires 0 <= i < |dated| => dated[i].0)
  }

  /** `groupby('date').agg(mean of each field).reset_index()`; a run
      without records gives the empty frame. */
  function DailyMeans(recs: seq<Record>, parse: string -> Option<int>): seq<DailyAvg> {
    if recs == [] then []
    else
      var dated := Dated(recs, parse);
      var days := Distinct(DayList(dated));
      seq(|days|, i requires 0 <= i < |days| =>
        DailyAvg(days[i],
                 MeanSkipNa(ValuesAt(FieldObs(dated, TmaxOf), days[i])),
                 MeanSkipNa(ValuesAt(FieldObs(dated, TminOf), days[i])),
                 MeanSkipNa(ValuesAt(FieldObs(dated, AwndOf), days[i])),
                 MeanSkipNa(ValuesAt(FieldObs(dated, PrcpOf), days[i]))))
  }

  /** Reference definition of one day's values of a field: those of the
      records whose date parses to that day, in order. */
  function DayValues(recs: seq<Record>, parse: string -> Option<int>, field: Record -> Option<real>, k: int): seq<Option<real>>
    decreases |recs|
  {
    if recs == [] then []
    else (if parse(recs[0].date) == Some(k) then [field(recs[0])] else []) + DayValues(recs[1..], parse, field, k)
  }

  /** Grouping the dated observations by day gives the reference values. */
  lemma {:induction false} DatedValues(recs: seq<Record>, parse: string -> Option<int>, field: Record -> Option<real>, k: int)
    ensures ValuesAt(FieldObs(Dated(recs, parse), field), k) == DayValues(recs, parse, field, k)
    decreases |recs|
  {
    if recs != [] {
      DatedValues(recs[1..], parse, field, k);
      var day := parse(recs[0].date);
      var rest := Dated(recs[1..], parse);
      var xs := FieldObs(Dated(recs, parse), field);
      if day.Some? {
        assert Dated(recs, parse) == [(day.value, recs[0])] + rest;
        assert xs[0] == Obs(day.value, field(recs[0]));
        assert FieldObs(rest, field) == xs[1..];
        assert ValuesAt(xs, k) == (if day.value == k then [field(recs[0])] else []) + ValuesAt(xs[1..], k);
      } else {
        assert Dated(recs, parse) == rest;
      }
    }
  }

  /** A day occurs among the dated records exactly when some record's date
      parses to it. */
  lemma {:induction false} DatedDays(recs: seq<Record>, parse: string -> Option<int>, k: int)
    ensures k in DayList(Dated(recs, parse)) <==> exists r :: r in recs && parse(r.date) == Some(k)
    decreases |recs|
  {
    if recs != [] {
      DatedDays(recs[1..], parse, k);
      var day := parse(recs[0].date);
      var rest := Dated(recs[1..], parse);
      if day.Some? {
        assert DayList(Dated(recs, parse)) == [day.value] + DayList(rest);
      } else {
        assert DayList(Dated(recs, parse)) == DayList(rest);
      }
      assert recs == [recs[0]] + recs[1..];
      if exists r :: r in recs && parse(r.date) == Some(k) {
        var r :| r in recs && parse(r.date) == Some(k);
        assert r == recs[0] || r in recs[1..];
      }
    }
  }

  /** The daily frame: strictly ascending dates, a row for every date some
      record parses to and for no other, and each field the mean of that
      date's values of it across stations (NaN when none has one). */
  lemma DailyFacts(recs: seq<Record>, parse: string -> Option<int>)
    ensures var out := DailyMeans(recs, parse);
      (forall i, j :: 0 <= i < j < |out| ==> out[i].date < out[j].date) &&
      (forall k :: (exists i :: 0 <= i < |out| && out[i].date == k) <==> exists r :: r in recs && parse(r.date) == Some(k)) &&
      (forall i :: 0 <= i < |out| ==>
        out[i].tmax == MeanSkipNa(DayValues(recs, parse, TmaxOf, out[i].date)) &&
        out[i].tmin == MeanSkipNa(DayValues(recs, parse, TminOf, out[i].date)) &&
        out[i].awnd == MeanSkipNa(DayValues(recs, parse, AwndOf, out[i].date)) &&
        out[i].prcp == MeanSkipNa(DayValues(recs, parse, PrcpOf, out[i].date)))
  {
    var out := DailyMeans(recs, parse);
    if recs != [] {
      var dated := Dated(recs, parse);
      var days := Distinct(DayList(dated));
      assert |out| == |days| && forall i :: 0 <= i < |out| ==> out[i].date == days[i];
      forall k ensures (exists i :: 0 <= i < |out| && out[i].date == k) <==> exists r :: r in recs && parse(r.date) == Some(k) {
        DatedDays(recs, parse, k);
        assert k in days <==> exists i :: 0 <= i < |out| && out[i].date == k;
      }
      forall i | 0 <= i < |out|
        ensures out[i].tmax == MeanSkipNa(DayValues(recs, parse, TmaxOf, out[i].date))
        ensures out[i].tmin == MeanSkipNa(DayValues(recs, parse, TminOf, out[i].date))
        ensures out[i].awnd == MeanSkipNa(DayValues(recs, parse, AwndOf, out[i].date))
        ensures out[i].prcp == MeanSkipNa(DayValues(recs, parse, PrcpOf, out[i].date))
      {
        DatedValues(recs, parse, TmaxOf, days[i]);
        DatedValues(recs, parse, TminOf, days[i]);
        DatedValues(recs, parse, AwndOf, days[i]);
        DatedValues(recs, parse, PrcpOf, days[i]);
      }
    } else {
      assert out == [];
    }
  }

  /** `aggregate_weather_data`: the station loop (skipping stations that
      returned nothing), the record built per entry, then the per-date
      means. */
  method AggregateWeatherData(stations: seq<Station>, fetch: string -> seq<Entry>, parse: string -> Option<int>)
    returns (daily: seq<DailyAvg>)
    ensures daily == DailyMeans(Records(stations, fetch), parse)
  {
    var allData: seq<Record> := [];
    for i := 0 to |stations|
      invariant allData == Records(stations[..i], fetch)
    {
      var station := stations[i];
      var stationName := StationName(station);
      var weatherData := fetch(station.id);
      assert stations[..i + 1][..i] == stations[..i];
      if weatherData == [] {
        continue;
      }
      for j := 0 to |weatherData|
        invariant allData == Records(stations[..i], fetch) + StationRecords(weatherData[..j], stationName)
      {
        var entry := weatherData[j];
        var record := Record(entry.date, stationName, None, None, None, None);
        if entry.kind == "TMAX" {
          record := record.(tmax := Some(entry.value));
        } else if entry.kind == "TMIN" {
          record := record.(tmin := Some(entry.value));
        } else if entry.kind == "AWND" {
          record := record.(awnd := Some(entry.value));
        } else if entry.kind == "PRCP" {
          record := record.(prcp := Some(entry.value));
        }
        assert StationRecords(weatherData[..j + 1], stationName) == StationRecords(weatherData[..j], stationName) + [record];
        allData := allData + [record];
      }
      assert weatherData[..|weatherData|] == weatherData;
    }
    assert stations[..|stations|] == stations;
    if allData == [] {
      daily := [];
      return;
    }
    daily := DailyMeans(allData, parse);
  }
}
