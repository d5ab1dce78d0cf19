/** `CloudWatchClient`: the configuration fixed at construction, and the
    operations that build requests and hand them to the CloudWatch API. */
module Client {
  import opened Wrappers
  import opened Dicts
  import opened Normaliser
  import opened Dimensions
  import opened Requests
  import opened Service
  import opened Alarms

  /** Region of the underlying boto3 client, chosen by the debug flag. */
  const AwsCloudWatchRegion: string := "eu-central-1"
  const DebugAwsCloudWatchRegion: string := "af-south-1"

  class CloudWatchClient {
    /** The normalised namespace; "" means none. */
    const namespace: string
    /** The normalised default dimensions, added to every request. */
    const metricDimensions: Dict<string>
    /** Alarm fields laid over every alarm and delete request. */
    const alarmConfig: Request
    /** The default unit. */
    const unit: string
    const debug: bool
    /** Whether a failed API call raises (true) or is only logged (false). */
    const raiseExceptions: bool
    /** The region the debug flag selects for the boto3 client. */
    const region: string
    /** The CloudWatch API. */
    const service: CloudWatchService

    /** The stored namespace and default dimensions are normalised: pure
        ASCII, with distinct dimension names. */
    ghost predicate Valid()
    {
      DistinctKeys(metricDimensions) && AsciiPairs(metricDimensions) && AllAscii(namespace)
    }

    constructor (service: CloudWatchService, namespace: string := "", metricDimensions: Dict<string> := [],
                 alarmConfig: Request := [], unit: string := "None", debug: bool := false,
                 raiseExceptions: bool := false)
      ensures Valid()
      ensures this.namespace == Normalise(namespace)
      ensures this.metricDimensions == NormalisedDimensions(metricDimensions)
      ensures this.alarmConfig == alarmConfig && this.unit == unit
      ensures this.debug == debug && this.raiseExceptions == raiseExceptions
      ensures this.region == if debug then DebugAwsCloudWatchRegion else AwsCloudWatchRegion
      ensures this.service == service
    {
      NormaliseIsAscii(namespace);
      NormalisedDimensionsAscii(metricDimensions);
      var dims := NormaliseDimensions(metricDimensions);
      this.namespace := Normalise(namespace);
      this.metricDimensions := dims;
      this.alarmConfig := alarmConfig;
      this.unit := unit;
      this.debug := debug;
      this.raiseExceptions := raiseExceptions;
      this.region := if debug then DebugAwsCloudWatchRegion else AwsCloudWatchRegion;
      this.service := service;
    }

    /** `_get_dimensions_as_list` */
    method GetDimensionsAsList(localDimensions: Option<Dict<string>>) returns (r: seq<Dimension>)
      requires Valid()
      ensures r == DimensionsFor(metricDimensions, localDimensions)
      ensures forall dim :: dim in r ==> AllAscii(dim.name) && AllAscii(dim.value)
    {
      DimensionsForAscii(metricDimensions, localDimensions);
      var local := NormaliseDimensions(if localDimensions.Some? then localDimensions.value else []);
      r := DictAsList(Merge(metricDimensions, local));
    }

    /** `submit_value`: one `put_metric_data` call; the request is returned
        whether the call succeeded or its failure was swallowed. */
    method SubmitValue(metricName: string, val: Value, dimensions: Option<Dict<string>> := None,
                       unit: Option<string> := None, additionalParams: Request := [])
      returns (r: Result<Request, Error>)
      requires Valid()
      modifies service
      ensures var request := MetricDataRequest(namespace, Normalise(metricName),
                                               DimensionsFor(metricDimensions, dimensions), val,
                                               EffectiveUnit(unit, this.unit), additionalParams);
              && service.log == old(service.log) + [Call(PutMetricData, request)]
              && service.script == AfterCall(old(service.script))
              && r == Dispatch(raiseExceptions, NextOutcome(old(service.script)), request)
    {
      var name := Normalise(metricName);
      var dims := GetDimensionsAsList(dimensions);
      var myConf := MetricDataBase(namespace, name, dims, val, EffectiveUnit(unit, this.unit));
      myConf := Merge(myConf, additionalParams);
      var outcome := service.Invoke(PutMetricData, myConf);
      if outcome.Failure? && raiseExceptions {
        return Raised(outcome.error);
      }
      r := Ok(myConf);
    }

    /** `_alarm_existing`: asks `describe_alarms_for_metric` and looks for
        an alarm of exactly that name. */
    method AlarmExisting(fullAlarmName: string, metricName: string, dimensions: Option<Dict<string>>)
      returns (r: Result<bool, Error>)
      requires Valid()
      modifies service
      ensures service.log == old(service.log) +
                [Call(DescribeAlarmsForMetric,
                      ExistenceQuery(namespace, metricName, DimensionsFor(metricDimensions, dimensions)))]
      ensures service.script == AfterCall(old(service.script))
      ensures r == ExistenceCheck(raiseExceptions, fullAlarmName, NextOutcome(old(service.script)))
    {
      var dims := GetDimensionsAsList(dimensions);
      var myConf := ExistenceQuery(namespace, metricName, dims);
      var outcome := service.Invoke(DescribeAlarmsForMetric, myConf);
      match outcome {
        case Failure(e) =>
          if raiseExceptions {
            return Raised(e);
          }
          return Ok(false);
        case Answer(resp) =>
          if resp.metricAlarms.None? {
            return Raised(TypeError);
          }
          var matching := Matching(resp.metricAlarms.value, fullAlarmName);
          return Ok(|matching| > 0);
      }
    }

    /** `set_alarm`: create or update an alarm, or, without
        `update_if_exists`, create it only if no alarm of that name exists. */
    method SetAlarm(alarmName: string, metricName: string, threshold: Value := Int(0),
                    dimensions: Option<Dict<string>> := None, unit: Option<string> := None,
                    updateIfExists: bool := false, additionalParams: Request := [])
      returns (r: Result<Option<Request>, Error>)
      requires Valid()
      modifies service
      ensures var full := FullAlarmName(namespace, alarmName);
              var metric := Normalise(metricName);
              var dims := DimensionsFor(metricDimensions, dimensions);
              var run := SetAlarmRun(raiseExceptions, updateIfExists, full, ExistenceQuery(namespace, metric, dims),
                                     AlarmRequest(namespace, full, metric, dims, EffectiveUnit(unit, this.unit),
                                                  threshold, alarmConfig, additionalParams),
                                     old(service.script));
              && r == run.result
              && service.log == old(service.log) + run.calls
              && service.script == run.rest
    {
      var fullAlarmName := FullAlarmName(namespace, alarmName);
      var metric := Normalise(metricName);
      ghost var script0 := service.script;
      ghost var log0 := service.log;
      ghost var query := ExistenceQuery(namespace, metric, DimensionsFor(metricDimensions, dimensions));
      ghost var request := AlarmRequest(namespace, fullAlarmName, metric, DimensionsFor(metricDimensions, dimensions),
                                        EffectiveUnit(unit, this.unit), threshold, alarmConfig, additionalParams);
      ghost var run := SetAlarmRun(raiseExceptions, updateIfExists, fullAlarmName, query, request, script0);
      var alarmExists: Option<bool> := None;
      if !updateIfExists {
        var check := AlarmExisting(fullAlarmName, metric, dimensions);
        if check.Raised? {
          assert run == Run(Raised(check.error), [Call(DescribeAlarmsForMetric, query)], AfterCall(script0));
          return Raised(check.error);
        }
        alarmExists := Some(check.value);
      }
      if updateIfExists || !alarmExists.value {
        var dims := GetDimensionsAsList(dimensions);
        var myConf := AlarmBase(namespace, fullAlarmName, metric, dims, EffectiveUnit(unit, this.unit), threshold);
        myConf := Merge(Merge(myConf, alarmConfig), additionalParams);
        assert myConf == request;
        ghost var script1 := service.script;
        var outcome := service.Invoke(PutMetricAlarm, myConf);
        ghost var put := SingleCall(raiseExceptions, PutMetricAlarm, request, Some(request), script1);
        if updateIfExists {
          assert run == put;
        } else {
          assert run == Run(put.result, [Call(DescribeAlarmsForMetric, query)] + put.calls, put.rest);
        }
        if outcome.Failure? && raiseExceptions {
          return Raised(outcome.error);
        }
        return Ok(Some(myConf));
      }
      assert run == Run(Ok(None), [Call(DescribeAlarmsForMetric, query)], AfterCall(script0));
      r := Ok(None);
    }

    /** `delete_alarm`: one `delete_alarms` call for the full alarm name. */
    method DeleteAlarm(alarmName: string) returns (r: Result<Request, Error>)
      requires Valid()
      modifies service
      ensures var request := DeleteRequest(FullAlarmName(namespace, alarmName), alarmConfig);
              && service.log == old(service.log) + [Call(DeleteAlarms, request)]
              && service.script == AfterCall(old(service.script))
              && r == Dispatch(raiseExceptions, NextOutcome(old(service.script)), request)
    {
      var fullAlarmName := FullAlarmName(namespace, alarmName);
      var myConf := DeleteRequest(fullAlarmName, alarmConfig);
      var outcome := service.Invoke(DeleteAlarms, myConf);
      if outcome.Failure? && raiseExceptions {
        return Raised(outcome.error);
      }
      r := Ok(myConf);
    }

    /** `get_alarms`: page through `describe_alarms` until a page names no
        next token. A failure ends the loop; unless it is raised, the alarms
        of the pages before it are returned. */
    method GetAlarms(state: string := "ALARM") returns (r: Result<seq<Alarm>, Error>)
      requires Valid()
      modifies service
      ensures var l := ListPages(ListingRequest(namespace, state), old(service.script));
              && r == (if l.failure.Some? && raiseExceptions then Raised(l.failure.value) else Ok(l.alarms))
              && service.log == old(service.log) + Described(l.requests)
              && service.script == l.rest
    {
      var res: seq<Alarm> := [];
      var myConf: Request := [("StateValue", Str(state)), ("MaxRecords", Int(100))];
      if namespace != "" {
        myConf := Put(myConf, "AlarmNamePrefix", Str(FullAlarmName(namespace, "")));
      }
      assert myConf == ListingRequest(namespace, state);
      ghost var whole := ListPages(myConf, service.script);
      ghost var sent: seq<Request> := [];
      var resp: Option<Response> := None;
      var nextToken: Option<string> := None;
      var failure: Option<Error> := None;
      assert whole == Resume(res, sent, whole);
      while resp.None? || nextToken.Some?
        invariant DistinctKeys(myConf)
        invariant service.log == old(service.log) + Described(sent)
        invariant resp.None? || nextToken.Some? ==> whole == Resume(res, sent, ListPages(myConf, service.script))
        invariant resp.Some? && nextToken.None? ==> whole == Listing(res, sent, None, service.script)
        invariant failure.None?
        decreases |service.script| + if resp.None? then 1 else 0
      {
        ListPagesStep(res, sent, myConf, service.script);
        var outcome := service.Invoke(DescribeAlarms, myConf);
        DescribedSnoc(sent, myConf);
        sent := sent + [myConf];
        if outcome.Failure? {
          // the exception leaves the loop
          failure := Some(outcome.error);
          break;
        }
        var page := outcome.response;
        resp := Some(page);
        res := res + PageAlarms(page);
        nextToken := page.nextToken;
        myConf := Put(myConf, "NextToken", if nextToken.Some? then Str(nextToken.value) else Null);
      }
      if failure.Some? && raiseExceptions {
        return Raised(failure.value);
      }
      r := Ok(res);
    }
  }
}
