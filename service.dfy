/** The CloudWatch API the client calls, as a scripted collaborator.

    Each call takes the next outcome of a finite script (a response or a
    failure) and is recorded in a ghost log. Once the script is used up,
    every further call fails with `NoResponse`. */
module Service {
  import opened Wrappers
  import opened Requests

  datatype Operation =
    | PutMetricData
    | PutMetricAlarm
    | DeleteAlarms
    | DescribeAlarms
    | DescribeAlarmsForMetric

  datatype Call = Call(op: Operation, request: Request)

  /** An alarm record as CloudWatch returns it; the client only reads its
      `AlarmName`, which the record may lack. */
  datatype Alarm = Alarm(alarmName: Option<string>, details: Request)

  /** A response: its `MetricAlarms` and `NextToken` entries, each of which
      may be absent. */
  datatype Response = Response(metricAlarms: Option<seq<Alarm>>, nextToken: Option<string>)

  datatype Error =
    | ServiceError(message: string)  // anything the boto3 call raises
    | NoResponse                     // the script is used up
    | TypeError                      // iterating over a missing `MetricAlarms`

  datatype Outcome = Answer(response: Response) | Failure(error: Error)

  function NextOutcome(script: seq<Outcome>): Outcome
  {
    if script == [] then Failure(NoResponse) else script[0]
  }

  function AfterCall(script: seq<Outcome>): (rest: seq<Outcome>)
    ensures |rest| == if script == [] then 0 else |script| - 1
  {
    if script == [] then [] else script[1..]
  }

  class CloudWatchService {
    var script: seq<Outcome>
    ghost var log: seq<Call>

    constructor (script: seq<Outcome>)
      ensures this.script == script && log == []
    {
      this.script := script;
      log := [];
    }

    /** Issue one API call. */
    method Invoke(op: Operation, request: Request) returns (outcome: Outcome)
      modifies this
      ensures outcome == NextOutcome(old(script))
      ensures script == AfterCall(old(script))
      ensures log == old(log) + [Call(op, request)]
    {
      outcome := NextOutcome(script);
      script := AfterCall(script);
      log := log + [Call(op, request)];
    }
  }
}
