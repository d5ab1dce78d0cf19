/** What the client decides from the collaborator's answers: whether an
    alarm exists, whether `set_alarm` creates it, when an error escapes, and
    which pages `get_alarms` requests and collects. */
module Alarms {
  import opened Wrappers
  import opened Dicts
  import opened Requests
  import opened Service

  /** `[a for a in alarms if a.get('AlarmName') == name]` */
  function Matching(alarms: seq<Alarm>, name: string): seq<Alarm>
  {
    if alarms == [] then []
    else (if alarms[0].alarmName == Some(name) then [alarms[0]] else []) + Matching(alarms[1..], name)
  }

  predicate HasAlarmNamed(alarms: seq<Alarm>, name: string)
  {
    exists i :: 0 <= i < |alarms| && alarms[i].alarmName == Some(name)
  }

  /** `len(matching) > 0` holds exactly when some alarm carries that exact
      name; an alarm without an `AlarmName` never matches. */
  lemma {:induction false} MatchingNonEmpty(alarms: seq<Alarm>, name: string)
    ensures |Matching(alarms, name)| > 0 <==> HasAlarmNamed(alarms, name)
  {
    if alarms != [] {
      MatchingNonEmpty(alarms[1..], name);
      if HasAlarmNamed(alarms[1..], name) {
        var i :| 0 <= i < |alarms[1..]| && alarms[1..][i].alarmName == Some(name);
        assert alarms[i + 1].alarmName == Some(name);
      }
      if HasAlarmNamed(alarms, name) && alarms[0].alarmName != Some(name) {
        var i :| 0 <= i < |alarms| && alarms[i].alarmName == Some(name);
        assert alarms[1..][i - 1].alarmName == Some(name);
      }
    }
  }

  /** `_alarm_existing`, given the outcome of `describe_alarms_for_metric`.
      A failed query counts as "absent" unless exceptions are raised; a
      response without `MetricAlarms` fails outside the `try`, so its
      `TypeError` always escapes. */
  function ExistenceCheck(raiseExceptions: bool, fullAlarmName: string, outcome: Outcome): Result<bool, Error>
  {
    match outcome
    case Failure(e) => if raiseExceptions then Raised(e) else Ok(false)
    case Answer(resp) =>
      if resp.metricAlarms.None? then Raised(TypeError)
      else Ok(|Matching(resp.metricAlarms.value, fullAlarmName)| > 0)
  }

  /** The three ways the existence check can end, each characterised by the
      collaborator's outcome. */
  lemma ExistenceCheckCases(raiseExceptions: bool, fullAlarmName: string, outcome: Outcome)
    ensures ExistenceCheck(raiseExceptions, fullAlarmName, outcome) == Ok(true) <==>
              outcome.Answer? && outcome.response.metricAlarms.Some? &&
              HasAlarmNamed(outcome.response.metricAlarms.value, fullAlarmName)
    ensures ExistenceCheck(raiseExceptions, fullAlarmName, outcome) == Ok(false) <==>
              (outcome.Failure? && !raiseExceptions) ||
              (outcome.Answer? && outcome.response.metricAlarms.Some? &&
               !HasAlarmNamed(outcome.response.metricAlarms.value, fullAlarmName))
    ensures ExistenceCheck(raiseExceptions, fullAlarmName, outcome).Raised? <==>
              (outcome.Failure? && raiseExceptions) ||
              (outcome.Answer? && outcome.response.metricAlarms.None?)
  {
    if outcome.Answer? && outcome.response.metricAlarms.Some? {
      MatchingNonEmpty(outcome.response.metricAlarms.value, fullAlarmName);
    }
  }

  /** After one call: its exception escapes only when exceptions are
      raised; otherwise the operation returns `value` either way. */
  function Dispatch<T>(raiseExceptions: bool, outcome: Outcome, value: T): Result<T, Error>
  {
    if outcome.Failure? && raiseExceptions then Raised(outcome.error) else Ok(value)
  }

  /** Swallow or raise: a failure escapes exactly when exceptions are
      raised; every other ending returns the request's value. */
  lemma DispatchPolicy<T>(raiseExceptions: bool, outcome: Outcome, value: T)
    ensures Dispatch(raiseExceptions, outcome, value).Raised? <==> raiseExceptions && outcome.Failure?
    ensures Dispatch(raiseExceptions, outcome, value).Raised? ==>
              Dispatch(raiseExceptions, outcome, value).error == outcome.error
    ensures !raiseExceptions ==> Dispatch(raiseExceptions, outcome, value) == Ok(value)
  {
  }

  /** What a sequence of API calls did: the operation's result, the calls
      issued in order, and the script left over. */
  datatype Run<T> = Run(result: Result<T, Error>, calls: seq<Call>, rest: seq<Outcome>)

  /** One API call whose success or swallowed failure returns `value`. */
  function SingleCall<T>(raiseExceptions: bool, op: Operation, request: Request, value: T,
                         script: seq<Outcome>): Run<T>
  {
    Run(Dispatch(raiseExceptions, NextOutcome(script), value), [Call(op, request)], AfterCall(script))
  }

  /** The calls and result of `set_alarm`: the existence query is issued
      only without `update_if_exists`, and `put_metric_alarm` only with it
      or when the check found no alarm; an existing alarm returns `None`. */
  function SetAlarmRun(raiseExceptions: bool, updateIfExists: bool, fullAlarmName: string,
                       query: Request, alarm: Request, script: seq<Outcome>): Run<Option<Request>>
  {
    if updateIfExists then SingleCall(raiseExceptions, PutMetricAlarm, alarm, Some(alarm), script)
    else
      var asked := [Call(DescribeAlarmsForMetric, query)];
      match ExistenceCheck(raiseExceptions, fullAlarmName, NextOutcome(script))
      case Raised(e) => Run(Raised(e), asked, AfterCall(script))
      case Ok(exists_) =>
        if exists_ then Run(Ok(None), asked, AfterCall(script))
        else
          var put := SingleCall(raiseExceptions, PutMetricAlarm, alarm, Some(alarm), AfterCall(script));
          Run(put.result, asked + put.calls, put.rest)
  }

  /** The number of `put_metric_alarm` calls among `calls`. */
  function Creations(calls: seq<Call>): nat
  {
    if calls == [] then 0
    else (if calls[0].op == PutMetricAlarm then 1 else 0) + Creations(calls[1..])
  }

  lemma {:induction false} CreationsAppend(a: seq<Call>, b: seq<Call>)
    ensures Creations(a + b) == Creations(a) + Creations(b)
  {
    if a == [] {
      assert a + b == b;
    } else {
      assert (a + b)[1..] == a[1..] + b;
      CreationsAppend(a[1..], b);
    }
  }

  /** The upsert rule of `set_alarm`. With `update_if_exists` exactly one
      call, the creation, is issued. Without it the existence query is
      issued, followed by the creation exactly when the check reports the
      alarm absent, and `None` is returned exactly when it reports it
      present. Whenever the alarm is created, the result is the creation's
      outcome dispatched with the merged request as its value. */
  lemma UpsertDecision(raiseExceptions: bool, updateIfExists: bool, fullAlarmName: string,
                       query: Request, alarm: Request, script: seq<Outcome>)
    ensures var run := SetAlarmRun(raiseExceptions, updateIfExists, fullAlarmName, query, alarm, script);
            var check := ExistenceCheck(raiseExceptions, fullAlarmName, NextOutcome(script));
            && (updateIfExists ==> run.calls == [Call(PutMetricAlarm, alarm)])
            && (!updateIfExists ==>
                  && run.calls == [Call(DescribeAlarmsForMetric, query)]
                                  + (if check == Ok(false) then [Call(PutMetricAlarm, alarm)] else [])
                  && (Creations(run.calls) == 1 <==> check == Ok(false))
                  && (Creations(run.calls) == 0 <==> check != Ok(false))
                  && (run.result == Ok(None) <==> check == Ok(true))
                  && (check.Raised? ==> run.result == Raised(check.error)))
            && ((updateIfExists || check == Ok(false)) ==>
                  run.result == Dispatch(raiseExceptions,
                                         if updateIfExists then NextOutcome(script)
                                         else NextOutcome(AfterCall(script)),
                                         Some(alarm)))
  {
    var run := SetAlarmRun(raiseExceptions, updateIfExists, fullAlarmName, query, alarm, script);
    var asked := [Call(DescribeAlarmsForMetric, query)];
    assert Creations(asked) == 0;
    if !updateIfExists && ExistenceCheck(raiseExceptions, fullAlarmName, NextOutcome(script)) == Ok(false) {
      CreationsAppend(asked, [Call(PutMetricAlarm, alarm)]);
    }
  }

  /** Calling `set_alarm` twice without `update_if_exists` creates the alarm
      once, provided the first query finds no alarm of that name and the
      second finds the one just created: the second call returns `None`. */
  lemma CreateIfMissingTwice(raiseExceptions: bool, fullAlarmName: string, query: Request,
                             alarm: Request, script: seq<Outcome>)
    requires |script| >= 3
    requires script[0].Answer? && script[0].response.metricAlarms.Some?
    requires !HasAlarmNamed(script[0].response.metricAlarms.value, fullAlarmName)
    requires script[2].Answer? && script[2].response.metricAlarms.Some?
    requires HasAlarmNamed(script[2].response.metricAlarms.value, fullAlarmName)
    ensures var first := SetAlarmRun(raiseExceptions, false, fullAlarmName, query, alarm, script);
            var second := SetAlarmRun(raiseExceptions, false, fullAlarmName, query, alarm, first.rest);
            && Creations(first.calls + second.calls) == 1
            && second.result == Ok(None)
  {
    var first := SetAlarmRun(raiseExceptions, false, fullAlarmName, query, alarm, script);
    ExistenceCheckCases(raiseExceptions, fullAlarmName, script[0]);
    UpsertDecision(raiseExceptions, false, fullAlarmName, query, alarm, script);
    assert first.rest == script[2..];
    ExistenceCheckCases(raiseExceptions, fullAlarmName, script[2]);
    UpsertDecision(raiseExceptions, false, fullAlarmName, query, alarm, first.rest);
    var second := SetAlarmRun(raiseExceptions, false, fullAlarmName, query, alarm, first.rest);
    CreationsAppend(first.calls, second.calls);
  }

  // Pagination of `get_alarms`.

  /** `resp.get('MetricAlarms', [])` */
  function PageAlarms(resp: Response): seq<Alarm>
  {
    if resp.metricAlarms.Some? then resp.metricAlarms.value else []
  }

  /** What the `describe_alarms` loop did: the alarms collected, the
      requests issued, the failure that ended it if any, and the script left
      over. */
  datatype Listing = Listing(alarms: seq<Alarm>, requests: seq<Request>, failure: Option<Error>,
                             rest: seq<Outcome>)

  /** The loop of `get_alarms` from request `conf` on: one `describe_alarms`
      per page; a page with a `NextToken` (even an empty one) leads to a
      next request carrying that token; the first page without one, or the
      first failure, ends it. */
  function ListPages(conf: Request, script: seq<Outcome>): Listing
    requires DistinctKeys(conf)
    decreases |script|
  {
    if script == [] then Listing([], [conf], Some(NoResponse), [])
    else match script[0]
      case Failure(e) => Listing([], [conf], Some(e), script[1..])
      case Answer(resp) =>
        if resp.nextToken.None? then Listing(PageAlarms(resp), [conf], None, script[1..])
        else
          var more := ListPages(Put(conf, "NextToken", Str(resp.nextToken.value)), script[1..]);
          Listing(PageAlarms(resp) + more.alarms, [conf] + more.requests, more.failure, more.rest)
  }

  /** The `describe_alarms` calls that send `requests`, in order. */
  function Described(requests: seq<Request>): seq<Call>
  {
    seq(|requests|, i requires 0 <= i < |requests| => Call(DescribeAlarms, requests[i]))
  }

  lemma DescribedSnoc(requests: seq<Request>, request: Request)
    ensures Described(requests + [request]) == Described(requests) + [Call(DescribeAlarms, request)]
  {
  }

  /** The listing of a loop that has already collected `alarms` and sent
      `requests`, and whose remaining pages give `l`. */
  function Resume(alarms: seq<Alarm>, requests: seq<Request>, l: Listing): Listing
  {
    Listing(alarms + l.alarms, requests + l.requests, l.failure, l.rest)
  }

  /** One turn of the `get_alarms` loop: the next outcome either ends the
      listing (a failure, or a page without a token) or moves it on to the
      request carrying the page's token. */
  lemma ListPagesStep(alarms: seq<Alarm>, requests: seq<Request>, conf: Request, script: seq<Outcome>)
    requires DistinctKeys(conf)
    ensures var now := Resume(alarms, requests, ListPages(conf, script));
            var next := NextOutcome(script);
            && (next.Failure? ==> now == Listing(alarms, requests + [conf], Some(next.error), AfterCall(script)))
            && (next.Answer? && next.response.nextToken.None? ==>
                  now == Listing(alarms + PageAlarms(next.response), requests + [conf], None, AfterCall(script)))
            && (Continues(next) ==>
                  now == Resume(alarms + PageAlarms(next.response), requests + [conf],
                                ListPages(Put(conf, "NextToken", Str(next.response.nextToken.value)), AfterCall(script))))
  {
    var next := NextOutcome(script);
    if next.Failure? {
      ListPagesFailure(conf, script);
    } else if !Continues(next) {
      ListPagesLastPage(conf, script);
    } else {
      ListPagesNextPage(alarms, requests, conf, script);
    }
  }

  lemma ListPagesFailure(conf: Request, script: seq<Outcome>)
    requires DistinctKeys(conf)
    requires NextOutcome(script).Failure?
    ensures ListPages(conf, script) == Listing([], [conf], Some(NextOutcome(script).error), AfterCall(script))
  {
  }

  lemma ListPagesLastPage(conf: Request, script: seq<Outcome>)
    requires DistinctKeys(conf)
    requires script != [] && script[0].Answer? && script[0].response.nextToken.None?
    ensures ListPages(conf, script) == Listing(PageAlarms(script[0].response), [conf], None, script[1..])
  {
  }

  lemma ListPagesContinue(conf: Request, script: seq<Outcome>)
    requires DistinctKeys(conf)
    requires script != [] && Continues(script[0])
    ensures var resp := script[0].response;
            var more := ListPages(Put(conf, "NextToken", Str(resp.nextToken.value)), script[1..]);
            ListPages(conf, script) == Listing(PageAlarms(resp) + more.alarms, [conf] + more.requests,
                                               more.failure, more.rest)
  {
  }

  lemma ListPagesNextPage(alarms: seq<Alarm>, requests: seq<Request>, conf: Request, script: seq<Outcome>)
    requires DistinctKeys(conf)
    requires script != [] && Continues(script[0])
    ensures var resp := script[0].response;
            Resume(alarms, requests, ListPages(conf, script)) ==
            Resume(alarms + PageAlarms(resp), requests + [conf],
                   ListPages(Put(conf, "NextToken", Str(resp.nextToken.value)), script[1..]))
  {
    var resp := script[0].response;
    var more := ListPages(Put(conf, "NextToken", Str(resp.nextToken.value)), script[1..]);
    ListPagesContinue(conf, script);
    assert alarms + (PageAlarms(resp) + more.alarms) == alarms + PageAlarms(resp) + more.alarms;
    assert requests + ([conf] + more.requests) == requests + [conf] + more.requests;
  }

  /** An answered page that names a next token. */
  predicate Continues(outcome: Outcome)
  {
    outcome.Answer? && outcome.response.nextToken.Some?
  }

  /** The alarms of the answered pages among `pages`, in order; a failure
      contributes none. */
  function Answered(pages: seq<Outcome>): seq<Alarm>
  {
    if pages == [] then []
    else (if pages[0].Answer? then PageAlarms(pages[0].response) else []) + Answered(pages[1..])
  }

  /** The requests of the loop: `conf` first, then, after every page that
      names a token, the previous request with `NextToken` set to that token;
      the page answering the last request does not continue. */
  lemma {:induction false} ListPagesRequests(conf: Request, script: seq<Outcome>)
    requires DistinctKeys(conf)
    ensures var l := ListPages(conf, script);
            var n := |l.requests| - 1;
            && n >= 0 && l.requests[0] == conf && n <= |script|
            && (forall i :: 0 <= i <= n ==> DistinctKeys(l.requests[i]))
            && (forall i :: 0 <= i < n ==> Continues(script[i]))
            && (forall i :: 0 <= i < n ==>
                  l.requests[i + 1] == Put(l.requests[i], "NextToken", Str(script[i].response.nextToken.value)))
            && (n < |script| ==> !Continues(script[n]))
    decreases |script|
  {
    if script != [] && Continues(script[0]) {
      var conf' := Put(conf, "NextToken", Str(script[0].response.nextToken.value));
      ListPagesRequests(conf', script[1..]);
    }
  }

  /** How the loop ends: with no answer, with the failure of the last
      request, or after a page without a token; the rest of the script is
      left untouched. */
  lemma {:induction false} ListPagesEnd(conf: Request, script: seq<Outcome>)
    requires DistinctKeys(conf)
    ensures var l := ListPages(conf, script);
            var n := |l.requests| - 1;
            && 0 <= n <= |script|
            && (forall i :: 0 <= i < n ==> script[i].Answer?)
            && l.failure == (if n == |script| then Some(NoResponse)
                             else if script[n].Failure? then Some(script[n].error) else None)
            && l.rest == if n < |script| then script[n + 1..] else []
    decreases |script|
  {
    if NextOutcome(script).Failure? {
      ListPagesFailure(conf, script);
    } else if !Continues(script[0]) {
      ListPagesLastPage(conf, script);
    } else {
      var tail := script[1..];
      var conf' := Put(conf, "NextToken", Str(script[0].response.nextToken.value));
      ListPagesEnd(conf', tail);
      ListPagesContinue(conf, script);
      var more := ListPages(conf', tail);
      var m := |more.requests| - 1;
      assert forall i :: 1 <= i < m + 1 ==> script[i] == tail[i - 1];
      if m < |tail| {
        assert script[m + 1] == tail[m];
        assert script[m + 2..] == tail[m + 1..];
      }
    }
  }

  /** The loop returns the in-order concatenation of the alarms of every
      page it consumed. */
  lemma {:induction false} ListPagesAlarms(conf: Request, script: seq<Outcome>)
    requires DistinctKeys(conf)
    ensures var l := ListPages(conf, script);
            && |l.rest| <= |script| && (script != [] ==> |l.rest| < |script|)
            && l.alarms == Answered(script[..|script| - |l.rest|])
    decreases |script|
  {
    var l := ListPages(conf, script);
    if script != [] {
      if Continues(script[0]) {
        var tail := script[1..];
        var conf' := Put(conf, "NextToken", Str(script[0].response.nextToken.value));
        ListPagesAlarms(conf', tail);
        var more := ListPages(conf', tail);
        assert l.rest == more.rest;
        assert script[..|script| - |l.rest|] == [script[0]] + tail[..|tail| - |more.rest|];
      } else {
        assert |l.rest| == |script| - 1;
        assert script[..1] == [script[0]];
      }
    }
  }

  /** A listing over a page naming a token, then a last page: two requests,
      the second carrying the token, and both pages' alarms in order. */
  lemma TwoPages(conf: Request, a: seq<Alarm>, b: seq<Alarm>, t: string)
    requires DistinctKeys(conf)
    ensures var script := [Answer(Response(Some(a), Some(t))), Answer(Response(Some(b), None))];
            ListPages(conf, script) == Listing(a + b, [conf, Put(conf, "NextToken", Str(t))], None, [])
  {
    var script := [Answer(Response(Some(a), Some(t))), Answer(Response(Some(b), None))];
    var next := Put(conf, "NextToken", Str(t));
    ListPagesContinue(conf, script);
    assert script[1..] == [script[1]];
    ListPagesLastPage(next, script[1..]);
    assert script[1..][1..] == [];
  }
}
