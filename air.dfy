/** Loading an EPA daily-summary file the way the air-quality scripts do:
    parse `date_local`, average `arithmetic_mean` across stations per day,
    and, for the monthly models, average the daily means per calendar month. */
module AirData {
  import opened Wrappers
  import opened Stats
  import opened Aggregate
  import opened Metrics
  import Calendar

  /** One row of a daily-summary file as far as the loaders read it: the
      `date_local` text (None when blank) and `arithmetic_mean` (None when
      blank). */
  datatype Reading = Reading(date: Option<string>, value: Option<real>)

  /** A row whose date is present but which the date parser rejects. */
  predicate BadDate(r: Reading, parse: string -> Option<Calendar.Day>) {
    r.date.Some? && parse(r.date.value).None?
  }

  /** Strict date parsing of the whole column (`pd.to_datetime` without
      `errors='coerce'`, or `read_csv(parse_dates=...)`, which leaves the
      column as text so that the date-based steps after it fail): a blank
      date is NaT and its row drops out of the group-by, and the first
      present date the parser rejects is an error. */
  function Dated(rows: seq<Reading>, parse: string -> Option<Calendar.Day>): (r: Outcome<seq<Obs>>)
    ensures r.Err? <==> exists i :: 0 <= i < |rows| && BadDate(rows[i], parse)
    ensures r.Ok? ==> |r.value| <= |rows|
  {
    if rows == [] then Ok([])
    else
      var rest := Dated(rows[1..], parse);
      assert forall i :: 1 <= i < |rows| ==> rows[1..][i - 1] == rows[i];
      match rows[0].date
      case None => rest
      case Some(s) =>
        if parse(s).None? then Err("Unknown datetime string format, unable to parse: " + s)
        else if rest.Err? then rest
        else Ok([Obs(parse(s).value, rows[0].value)] + rest.value)
  }

  /** Every observation comes from a row with a parsable date, and every
      such row gives one. */
  lemma {:induction false} DatedRows(rows: seq<Reading>, parse: string -> Option<Calendar.Day>, o: Obs)
    requires Dated(rows, parse).Ok?
    ensures o in Dated(rows, parse).value <==>
      exists j :: 0 <= j < |rows| && rows[j].date.Some? && parse(rows[j].date.value) == Some(o.key) && rows[j].value == o.val
  {
    if rows != [] {
      assert forall i :: 1 <= i < |rows| ==> rows[1..][i - 1] == rows[i];
      assert Dated(rows[1..], parse).Ok?;
      DatedRows(rows[1..], parse, o);
      if rows[0].date.Some? {
        assert Dated(rows, parse).value == [Obs(parse(rows[0].date.value).value, rows[0].value)] + Dated(rows[1..], parse).value;
      }
      if exists j :: 0 <= j < |rows| && rows[j].date.Some? && parse(rows[j].date.value) == Some(o.key) && rows[j].value == o.val {
        var j :| 0 <= j < |rows| && rows[j].date.Some? && parse(rows[j].date.value) == Some(o.key) && rows[j].value == o.val;
        if j > 0 {
          assert rows[1..][j - 1] == rows[j];
        }
      }
    }
  }

  /** `groupby('date_local')['arithmetic_mean'].mean()`: one row per parsed
      date, ascending, holding the mean of that day's values across stations. */
  function Daily(rows: seq<Reading>, parse: string -> Option<Calendar.Day>): Outcome<seq<Obs>> {
    match Dated(rows, parse)
    case Err(m) => Err(m)
    case Ok(xs) => Ok(GroupMean(xs))
  }

  /** The daily table is ascending by date, has one row per date that occurs,
      and each value is the mean of the values recorded on that date. */
  lemma DailyMeans(rows: seq<Reading>, parse: string -> Option<Calendar.Day>)
    requires Daily(rows, parse).Ok?
    ensures Ascending(Daily(rows, parse).value)
    ensures forall k :: k in Keys(Daily(rows, parse).value) <==>
      exists j :: 0 <= j < |rows| && rows[j].date.Some? && parse(rows[j].date.value) == Some(k)
    ensures forall i :: 0 <= i < |Daily(rows, parse).value| ==>
      Daily(rows, parse).value[i].val == MeanSkipNa(ValuesAt(Dated(rows, parse).value, Daily(rows, parse).value[i].key))
  {
    var xs := Dated(rows, parse).value;
    forall k ensures k in Keys(xs) <==>
      exists j :: 0 <= j < |rows| && rows[j].date.Some? && parse(rows[j].date.value) == Some(k)
    {
      if k in Keys(xs) {
        var i :| 0 <= i < |xs| && Keys(xs)[i] == k;
        DatedRows(rows, parse, xs[i]);
      }
      if exists j :: 0 <= j < |rows| && rows[j].date.Some? && parse(rows[j].date.value) == Some(k) {
        var j :| 0 <= j < |rows| && rows[j].date.Some? && parse(rows[j].date.value) == Some(k);
        DatedRows(rows, parse, Obs(k, rows[j].value));
        var i :| 0 <= i < |xs| && xs[i] == Obs(k, rows[j].value);
        assert Keys(xs)[i] == k;
      }
    }
  }

  /** The month bin of each daily row (`resample('M')` labels a month by its
      last day; the model labels it by year * 12 + month - 1). */
  function ToMonths(xs: seq<Obs>): (r: seq<Obs>)
    ensures |r| == |xs|
    ensures forall i :: 0 <= i < |xs| ==> r[i] == Obs(Calendar.MonthKey(xs[i].key), xs[i].val)
  {
    seq(|xs|, i requires 0 <= i < |xs| => Obs(Calendar.MonthKey(xs[i].key), xs[i].val))
  }

  /** `load_data` of the monthly models: daily means, then
      `resample('M').mean().dropna()` over the month bins. */
  function Monthly(rows: seq<Reading>, parse: string -> Option<Calendar.Day>): Outcome<seq<Point>> {
    match Daily(rows, parse)
    case Err(m) => Err(m)
    case Ok(days) => Ok(DropNa(Resample(ToMonths(days))))
  }

  /** The monthly series is strictly ascending by month, and a (month, value)
      point is in it exactly when some day of that month has a daily mean and
      value is the mean of that month's daily means: empty months are gone. */
  lemma MonthlyMeans(rows: seq<Reading>, parse: string -> Option<Calendar.Day>, p: Point)
    requires Monthly(rows, parse).Ok?
    ensures AscendingPoints(Monthly(rows, parse).value)
    ensures p in Monthly(rows, parse).value <==>
      var ms := ToMonths(Daily(rows, parse).value);
      p.key in Keys(ms) && MeanSkipNa(ValuesAt(ms, p.key)) == Some(p.val)
  {
    var ms := ToMonths(Daily(rows, parse).value);
    DropNaAscending(Resample(ms));
    InResampled(ms, p);
  }

  // ----- the metric record of the univariate air models -----

  /** RMSE, MAE and MAPE (in percent) of one pollutant; all three are None
      when the run failed. */
  datatype AirMetrics = AirMetrics(rmse: Option<real>, mae: Option<real>, mape: Option<real>)

  const NoMetrics := AirMetrics(None, None, None)

  /** The scoring shared by the univariate models: scikit-learn's RMSE, MAE
      and MAPE on the test values, RMSE and MAE rounded to 2 places, MAPE
      scaled by 100 and then rounded to 2. scikit-learn rejects empty or
      mismatched arrays. */
  function Rounded(ys: seq<real>, ps: seq<real>, sqrt: real -> real, round: (real, int) -> real): (r: Outcome<AirMetrics>)
    ensures r.Ok? <==> |ys| == |ps| > 0
    ensures r.Ok? ==> r.value.rmse.Some? && r.value.mae.Some? && r.value.mape.Some?
  {
    match Score(ys, ps, SkEps)
    case Err(m) => Err(m)
    case Ok(s) => Ok(AirMetrics(Some(round(sqrt(s.mse), 2)), Some(round(s.mae, 2)), Some(round(s.mape * 100.0, 2))))
  }

  /** The three scores as the scripts report them: RMSE and MAE rounded to
      2 places, MAPE scaled by 100 before it is rounded to 2. */
  lemma RoundedScores(ys: seq<real>, ps: seq<real>, sqrt: real -> real, round: (real, int) -> real)
    requires |ys| == |ps| > 0
    ensures Rounded(ys, ps, sqrt, round) == Ok(AirMetrics(
      Some(round(Rmse(ys, ps, sqrt), 2)), Some(round(Mae(ys, ps), 2)), Some(round(SkMape(ys, ps, SkEps) * 100.0, 2))))
  {
  }

  /** With exact rounding, the scores are those of the test values: RMSE
      squares back to MSE and every score is zero exactly for a perfect
      forecast. */
  lemma RoundedExact(ys: seq<real>, ps: seq<real>, sqrt: real -> real, round: (real, int) -> real)
    requires |ys| == |ps| > 0 && IsSqrt(sqrt)
    requires forall x, d :: round(x, d) == x
    ensures Rounded(ys, ps, sqrt, round).value.rmse.value * Rounded(ys, ps, sqrt, round).value.rmse.value == Mse(ys, ps)
    ensures Rounded(ys, ps, sqrt, round).value.mae == Some(Mae(ys, ps))
    ensures Rounded(ys, ps, sqrt, round).value.rmse == Some(0.0) <==> ys == ps
  {
    RmseZeroIffExact(ys, ps, sqrt);
    assert ys == ps <==> forall i :: 0 <= i < |ys| ==> ys[i] == ps[i];
  }
}
