/** The request dicts the client hands to CloudWatch, and the alarm names
    it derives. */
module Requests {
  import opened Wrappers
  import opened Dicts
  import opened Normaliser
  import opened Dimensions

  /** A value in a request dict. The caller's metric value and threshold are
      passed through unread; `Opaque` stands for any such value the model does
      not interpret (a float, say). */
  datatype Value =
    | Str(s: string)
    | Int(i: int)
    | Opaque(id: nat)
    | Null
    | DimensionList(dims: seq<Dimension>)
    | MetricDataList(data: seq<MetricDatum>)
    | StrList(strs: seq<string>)

  /** One entry of `MetricData`: `{MetricName, Dimensions, Value, Unit}`. */
  datatype MetricDatum = MetricDatum(metricName: string, dimensions: seq<Dimension>, value: Value, unit: string)

  type Request = Dict<Value>

  /** The alarm period: three hours, in seconds. */
  const AlarmPeriod: int := 60 * 60 * 3

  /** `unit or self._unit`: `None` and "" are falsy and give the default. */
  function EffectiveUnit(unit: Option<string>, default: string): string
  {
    if unit.Some? && unit.value != "" then unit.value else default
  }

  /** A non-empty call-time unit is sent as given; `None` or "" sends the
      client's default, so the unit sent is empty only if that default is. */
  lemma EffectiveUnitCases(unit: Option<string>, default: string)
    ensures unit.Some? && unit.value != "" ==> EffectiveUnit(unit, default) == unit.value
    ensures unit.None? || unit.value == "" ==> EffectiveUnit(unit, default) == default
    ensures EffectiveUnit(unit, default) == "" <==> default == "" && (unit.None? || unit.value == "")
  {
  }

  /** `_get_full_normalized_alarm_name`, for a client whose stored namespace
      (itself already normalised) is `namespace`. */
  function FullAlarmName(namespace: string, alarmName: string): (r: string)
    ensures AllAscii(namespace) ==> AllAscii(r)
  {
    NormaliseIsAscii(alarmName);
    if namespace == "" then Normalise(alarmName)
    else namespace + "." + Normalise(alarmName)
  }

  /** Two alarm names give the same full name exactly when they normalise
      alike, with or without a namespace. */
  lemma FullAlarmNameCollides(namespace: string, a: string, b: string)
    ensures FullAlarmName(namespace, a) == FullAlarmName(namespace, b) <==> Normalise(a) == Normalise(b)
  {
    if namespace != "" && FullAlarmName(namespace, a) == FullAlarmName(namespace, b) {
      var p := namespace + ".";
      assert FullAlarmName(namespace, a)[|p|..] == Normalise(a);
      assert FullAlarmName(namespace, b)[|p|..] == Normalise(b);
    }
  }

  /** Worked alarm names. */
  lemma FullAlarmNameExamples()
    ensures FullAlarmName("ns", "cpü") == "ns.cpue"
    ensures FullAlarmName("", "cpü") == "cpue"
  {
    NormaliseAppend("cp", "ü");
    assert Normalise("ü") == "ue";
    assert Normalise("cp") == "cp";
  }

  /** The prefix `get_alarms` filters by, `namespace + "."`, begins every full
      alarm name the same client builds. */
  lemma ListingPrefixCoversAlarmNames(namespace: string, alarmName: string)
    requires namespace != ""
    ensures FullAlarmName(namespace, "") == namespace + "."
    ensures var p := FullAlarmName(namespace, "");
            var n := FullAlarmName(namespace, alarmName);
            |p| <= |n| && n[..|p|] == p
  {
    assert Normalise("") == "";
    var n := FullAlarmName(namespace, alarmName);
    assert n[..|namespace| + 1] == namespace + ".";
  }

  /** The request `submit_value` builds before `additional_params` is laid
      over it. */
  function MetricDataBase(namespace: string, metricName: string, dims: seq<Dimension>,
                          val: Value, unit: string): (r: Request)
    ensures DistinctKeys(r)
  {
    [("Namespace", Str(namespace)),
     ("MetricData", MetricDataList([MetricDatum(metricName, dims, val, unit)]))]
  }

  /** `{**my_conf, **additional_params}` in `submit_value`. */
  function MetricDataRequest(namespace: string, metricName: string, dims: seq<Dimension>,
                             val: Value, unit: string, additionalParams: Request): (r: Request)
    ensures DistinctKeys(r)
  {
    Merge(MetricDataBase(namespace, metricName, dims, val, unit), additionalParams)
  }

  /** `additional_params` overrides any key of the request, `Namespace`
      included; a key it leaves alone keeps the computed value. */
  lemma MetricDataPrecedence(namespace: string, metricName: string, dims: seq<Dimension>,
                             val: Value, unit: string, additionalParams: Request)
    ensures var r := MetricDataRequest(namespace, metricName, dims, val, unit, additionalParams);
            && (forall k :: Get(additionalParams, k).Some? ==> Get(r, k) == Get(additionalParams, k))
            && (Get(additionalParams, "Namespace").None? ==> Get(r, "Namespace") == Some(Str(namespace)))
            && (Get(additionalParams, "MetricData").None? ==>
                  Get(r, "MetricData") == Some(MetricDataList([MetricDatum(metricName, dims, val, unit)])))
            && (forall k :: Get(r, k).Some? <==> k in ["Namespace", "MetricData"] || k in Keys(additionalParams))
  {
    var base := MetricDataBase(namespace, metricName, dims, val, unit);
    GetAt(base, 0);
    GetAt(base, 1);
    var r := MetricDataRequest(namespace, metricName, dims, val, unit, additionalParams);
    forall k ensures Get(r, k).Some? <==> k in ["Namespace", "MetricData"] || k in Keys(additionalParams) {
      GetDefined(additionalParams, k);
      GetDefined(base, k);
      assert Keys(base) == ["Namespace", "MetricData"];
    }
  }

  /** The request `set_alarm` builds before `alarm_config` and
      `additional_params` are laid over it. */
  function AlarmBase(namespace: string, fullAlarmName: string, metricName: string,
                     dims: seq<Dimension>, unit: string, threshold: Value): (r: Request)
    ensures DistinctKeys(r)
  {
    [("Namespace", Str(namespace)),
     ("AlarmName", Str(fullAlarmName)),
     ("MetricName", Str(metricName)),
     ("Statistic", Str("Average")),
     ("Dimensions", DimensionList(dims)),
     ("Period", Int(AlarmPeriod)),
     ("Unit", Str(unit)),
     ("EvaluationPeriods", Int(8)),
     ("DatapointsToAlarm", Int(8)),
     ("Threshold", threshold),
     ("ComparisonOperator", Str("GreaterThanThreshold")),
     ("TreatMissingData", Str("breaching"))]
  }

  /** `{**my_conf, **self._alarm_config, **additional_params}` */
  function AlarmRequest(namespace: string, fullAlarmName: string, metricName: string,
                        dims: seq<Dimension>, unit: string, threshold: Value,
                        alarmConfig: Request, additionalParams: Request): (r: Request)
    ensures DistinctKeys(r)
  {
    Merge(Merge(AlarmBase(namespace, fullAlarmName, metricName, dims, unit, threshold), alarmConfig),
          additionalParams)
  }

  /** Precedence in `set_alarm`: built value < `alarm_config` <
      `additional_params`, key by key. */
  lemma AlarmPrecedence(namespace: string, fullAlarmName: string, metricName: string,
                        dims: seq<Dimension>, unit: string, threshold: Value,
                        alarmConfig: Request, additionalParams: Request, k: string)
    ensures var r := AlarmRequest(namespace, fullAlarmName, metricName, dims, unit, threshold,
                                  alarmConfig, additionalParams);
            Get(r, k) == if Get(additionalParams, k).Some? then Get(additionalParams, k)
                         else if Get(alarmConfig, k).Some? then Get(alarmConfig, k)
                         else Get(AlarmBase(namespace, fullAlarmName, metricName, dims, unit, threshold), k)
  {
  }

  /** Without overrides for them, the alarm is named by the full alarm name,
      watches the normalised metric with the merged dimensions, and carries
      the effective unit and the caller's threshold. */
  lemma AlarmRequestFields(namespace: string, fullAlarmName: string, metricName: string,
                           dims: seq<Dimension>, unit: string, threshold: Value,
                           alarmConfig: Request, additionalParams: Request)
    requires forall k :: k in ["AlarmName", "MetricName", "Dimensions", "Unit", "Threshold"] ==>
               k !in Keys(alarmConfig) && k !in Keys(additionalParams)
    ensures var r := AlarmRequest(namespace, fullAlarmName, metricName, dims, unit, threshold,
                                  alarmConfig, additionalParams);
            && Get(r, "AlarmName") == Some(Str(fullAlarmName))
            && Get(r, "MetricName") == Some(Str(metricName))
            && Get(r, "Dimensions") == Some(DimensionList(dims))
            && Get(r, "Unit") == Some(Str(unit))
            && Get(r, "Threshold") == Some(threshold)
  {
    var base := AlarmBase(namespace, fullAlarmName, metricName, dims, unit, threshold);
    MergeTwiceKeeps(base, alarmConfig, additionalParams, "AlarmName");
    MergeTwiceKeeps(base, alarmConfig, additionalParams, "MetricName");
    MergeTwiceKeeps(base, alarmConfig, additionalParams, "Dimensions");
    MergeTwiceKeeps(base, alarmConfig, additionalParams, "Unit");
    MergeTwiceKeeps(base, alarmConfig, additionalParams, "Threshold");
    AlarmBaseFields(namespace, fullAlarmName, metricName, dims, unit, threshold);
  }

  lemma AlarmBaseFields(namespace: string, fullAlarmName: string, metricName: string,
                        dims: seq<Dimension>, unit: string, threshold: Value)
    ensures var base := AlarmBase(namespace, fullAlarmName, metricName, dims, unit, threshold);
            && Get(base, "AlarmName") == Some(Str(fullAlarmName))
            && Get(base, "MetricName") == Some(Str(metricName))
            && Get(base, "Dimensions") == Some(DimensionList(dims))
            && Get(base, "Unit") == Some(Str(unit))
            && Get(base, "Threshold") == Some(threshold)
  {
    var base := AlarmBase(namespace, fullAlarmName, metricName, dims, unit, threshold);
    GetAt(base, 1);
    GetAt(base, 2);
    GetAt(base, 4);
    GetAt(base, 6);
    GetAt(base, 9);
  }

  /** `{**dict(AlarmNames=[full_alarm_name]), **self._alarm_config}` in
      `delete_alarm`: the client's alarm configuration is laid over the
      delete request too. */
  function DeleteRequest(fullAlarmName: string, alarmConfig: Request): (r: Request)
    ensures DistinctKeys(r)
  {
    Merge([("AlarmNames", StrList([fullAlarmName]))], alarmConfig)
  }

  /** The delete request names the one full alarm name unless the alarm
      configuration itself sets `AlarmNames`; every configured key is sent. */
  lemma DeleteRequestFields(fullAlarmName: string, alarmConfig: Request)
    ensures var r := DeleteRequest(fullAlarmName, alarmConfig);
            && (Get(alarmConfig, "AlarmNames").None? ==> Get(r, "AlarmNames") == Some(StrList([fullAlarmName])))
            && (forall k :: Get(alarmConfig, k).Some? ==> Get(r, k) == Get(alarmConfig, k))
  {
  }

  /** The query of `_alarm_existing`: namespace, metric and dimensions only. */
  function ExistenceQuery(namespace: string, metricName: string, dims: seq<Dimension>): (r: Request)
    ensures DistinctKeys(r)
  {
    [("Namespace", Str(namespace)), ("MetricName", Str(metricName)), ("Dimensions", DimensionList(dims))]
  }

  /** The query does not filter by unit, threshold or anything else that may
      have been changed on the alarm by hand. */
  lemma ExistenceQueryKeys(namespace: string, metricName: string, dims: seq<Dimension>)
    ensures var q := ExistenceQuery(namespace, metricName, dims);
            && (forall k :: Get(q, k).Some? <==> k in ["Namespace", "MetricName", "Dimensions"])
            && Get(q, "Unit").None?
  {
    var q := ExistenceQuery(namespace, metricName, dims);
    forall k ensures Get(q, k).Some? <==> k in ["Namespace", "MetricName", "Dimensions"] {
      GetDefined(q, k);
      assert Keys(q) == ["Namespace", "MetricName", "Dimensions"];
    }
  }

  /** The first `describe_alarms` request of `get_alarms`. */
  function ListingRequest(namespace: string, state: string): (r: Request)
    ensures DistinctKeys(r)
  {
    var conf := [("StateValue", Str(state)), ("MaxRecords", Int(100))];
    if namespace != "" then Put(conf, "AlarmNamePrefix", Str(FullAlarmName(namespace, "")))
    else conf
  }

  /** `AlarmNamePrefix` is sent, as `namespace + "."`, exactly when the
      namespace is non-empty; `NextToken` is not sent on the first page. */
  lemma ListingRequestFields(namespace: string, state: string)
    ensures var r := ListingRequest(namespace, state);
            && Get(r, "StateValue") == Some(Str(state))
            && Get(r, "MaxRecords") == Some(Int(100))
            && (namespace != "" ==> Get(r, "AlarmNamePrefix") == Some(Str(namespace + ".")))
            && (namespace == "" ==> Get(r, "AlarmNamePrefix").None?)
            && Get(r, "NextToken").None?
            && DistinctKeys(r)
  {
    var conf: Request := [("StateValue", Str(state)), ("MaxRecords", Int(100))];
    GetAt(conf, 0);
    GetAt(conf, 1);
    assert Keys(conf) == ["StateValue", "MaxRecords"];
    GetAbsent(conf, "AlarmNamePrefix");
    GetAbsent(conf, "NextToken");
    if namespace != "" {
      assert FullAlarmName(namespace, "") == namespace + "." by {
        assert Normalise("") == "";
      }
      var r := Put(conf, "AlarmNamePrefix", Str(namespace + "."));
      assert r == ListingRequest(namespace, state);
    }
  }
}
