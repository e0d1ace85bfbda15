/** The token-refresh coordinator of `createAxiosInstance`
    (packages/common/src/axios/index.ts): the per-instance `isRefreshing` flag
    and `failedQueue`, `processQueue`, and the response-error interceptor.
    The interceptor runs in two halves around its one suspension point
    (`await refreshToken()`), so the coordinator is stepped by two kinds of
    event: an error reaching the interceptor, and the pending refresh settling.
    What the code does to the outside world (calling `refreshToken`, replaying
    or rejecting a request, calling a callback) is recorded as an action. */
module TokenRefresh {
  import opened Wrappers
  import opened Text
  import opened AxiosConfig

  /** The parts of an `AxiosError` the interceptor looks at: the configuration
      of the request that failed, when there is one. `id` tells errors apart. */
  datatype AxiosError = AxiosError(id: nat, config: Option<RequestConfig>)

  /** `tokenRefresh` and `responseInterceptor.onResponseError` as the
      interceptor sees them: the predicate when it is configured, and whether
      each callback is configured */
  datatype Options = Options(
    shouldRefreshToken: Option<AxiosError -> bool>,
    hasRefreshToken: bool,
    hasOnRefreshTokenFailed: bool,
    hasOnResponseError: bool)

  /** The refresh an interceptor call is awaiting: its error and the
      configuration of the request to retry */
  datatype Flight = Flight(error: AxiosError, original: RequestConfig)

  /** `isRefreshing`, the configurations in `failedQueue` (first queued first),
      and the interceptor call suspended on the refresh, if any */
  datatype Coordinator = Coordinator(isRefreshing: bool, failedQueue: seq<RequestConfig>, inFlight: Option<Flight>)

  const Idle: Coordinator := Coordinator(false, [], None)

  /** How `await refreshToken()` came back */
  datatype Settled = Refreshed | NotRefreshed | RefreshThrew(reason: string)

  datatype Event = ErrorArrives(error: AxiosError) | RefreshSettles(outcome: Settled)

  /** The reason an interceptor call's promise is rejected with */
  datatype Reason = WithError(error: AxiosError) | WithThrown(thrown: string)

  datatype Action =
    | RefreshCalled
    | Queued(config: RequestConfig)
    | Replayed(config: RequestConfig)
    | QueueRejected(config: RequestConfig, error: AxiosError)
    | RetriedOriginal(config: RequestConfig)
    | RefreshFailedNotified(error: AxiosError)
    | OriginalRejected(reason: Reason)
    | HandedToOnResponseError(error: AxiosError)

  datatype Step = Step(next: Coordinator, actions: seq<Action>)

  /** The guard of the refresh branch: both callbacks configured, the
      predicate accepts the error, and the error carries a configuration */
  predicate Eligible(opts: Options, e: AxiosError) {
    && opts.shouldRefreshToken.Some?
    && opts.hasRefreshToken
    && opts.shouldRefreshToken.value(e)
    && e.config.Some?
  }

  /** `processQueue(error)`: every queued request, first queued first, is
      rejected with `error` when there is one and replayed otherwise */
  function ProcessQueue(queue: seq<RequestConfig>, error: Option<AxiosError>): (r: seq<Action>)
    ensures |r| == |queue|
    ensures forall i :: 0 <= i < |queue| ==>
              r[i] == (if error.Some? then QueueRejected(queue[i], error.value) else Replayed(queue[i]))
  {
    if |queue| == 0 then []
    else
      [if error.Some? then QueueRejected(queue[0], error.value) else Replayed(queue[0])]
      + ProcessQueue(queue[1..], error)
  }

  function NotifyFailed(opts: Options, e: AxiosError): seq<Action> {
    if opts.hasOnRefreshTokenFailed then [RefreshFailedNotified(e)] else []
  }

  /** One event. A settlement with no refresh pending cannot happen and
      changes nothing. Every settlement runs the `finally` block, so the
      coordinator ends idle with its queue drained. */
  function Handle(opts: Options, c: Coordinator, ev: Event): Step {
    match ev
    case ErrorArrives(e) =>
      if Eligible(opts, e) then
        if c.isRefreshing then Step(c.(failedQueue := c.failedQueue + [e.config.value]), [Queued(e.config.value)])
        else Step(c.(isRefreshing := true, inFlight := Some(Flight(e, e.config.value))), [RefreshCalled])
      else if opts.hasOnResponseError then Step(c, [HandedToOnResponseError(e)])
      else Step(c, [OriginalRejected(WithError(e))])
    case RefreshSettles(outcome) =>
      match c.inFlight
      case None => Step(c, [])
      case Some(f) =>
        var done := Coordinator(false, [], None);
        match outcome
        case Refreshed =>
          Step(done, ProcessQueue(c.failedQueue, None) + [RetriedOriginal(f.original)])
        case NotRefreshed =>
          Step(done, ProcessQueue(c.failedQueue, Some(f.error)) + NotifyFailed(opts, f.error) + [OriginalRejected(WithError(f.error))])
        case RefreshThrew(x) =>
          Step(done, ProcessQueue(c.failedQueue, Some(f.error)) + NotifyFailed(opts, f.error) + [OriginalRejected(WithThrown(x))])
  }

  function Run(opts: Options, c: Coordinator, evs: seq<Event>): Step
    decreases |evs|
  {
    if |evs| == 0 then Step(c, [])
    else
      var first := Handle(opts, c, evs[0]);
      var rest := Run(opts, first.next, evs[1..]);
      Step(rest.next, first.actions + rest.actions)
  }

  /** Whenever no refresh is running the queue is empty, and a refresh is
      running exactly when an interceptor call awaits it */
  predicate Valid(c: Coordinator) {
    && (!c.isRefreshing ==> |c.failedQueue| == 0)
    && (c.isRefreshing <==> c.inFlight.Some?)
  }

  lemma HandleKeepsValid(opts: Options, c: Coordinator, ev: Event)
    requires Valid(c)
    ensures Valid(Handle(opts, c, ev).next)
  {
  }

  lemma {:induction false} RunKeepsValid(opts: Options, c: Coordinator, evs: seq<Event>)
    requires Valid(c)
    ensures Valid(Run(opts, c, evs).next)
    decreases |evs|
  {
    if |evs| > 0 {
      HandleKeepsValid(opts, c, evs[0]);
      RunKeepsValid(opts, Handle(opts, c, evs[0]).next, evs[1..]);
    }
  }

  /** An error that fails the guard leaves the coordinator alone and goes to
      `onResponseError` when configured, otherwise it is rejected unchanged;
      an error that passes it never reaches either */
  lemma IneligibleBypasses(opts: Options, c: Coordinator, e: AxiosError)
    ensures var s := Handle(opts, c, ErrorArrives(e));
            && (!Eligible(opts, e) ==> s.next == c)
            && (!Eligible(opts, e) && opts.hasOnResponseError <==> s.actions == [HandedToOnResponseError(e)])
            && (!Eligible(opts, e) && !opts.hasOnResponseError <==> s.actions == [OriginalRejected(WithError(e))])
  {
  }

  /** Single flight: an eligible error arriving while a refresh runs is only
      queued, at the back; `refreshToken` is not called again */
  lemma QueuedWhileRefreshing(opts: Options, c: Coordinator, e: AxiosError)
    requires Valid(c) && c.isRefreshing && Eligible(opts, e)
    ensures var s := Handle(opts, c, ErrorArrives(e));
            && s.actions == [Queued(e.config.value)]
            && s.next.failedQueue == c.failedQueue + [e.config.value]
            && s.next.isRefreshing && s.next.inFlight == c.inFlight
  {
  }

  function CountRefreshCalls(actions: seq<Action>): nat {
    if |actions| == 0 then 0 else (if actions[0].RefreshCalled? then 1 else 0) + CountRefreshCalls(actions[1..])
  }

  /** A settlement that finds an interceptor call awaiting the refresh: the
      only kind the interceptor produces, since a settlement is its
      `await refreshToken()` returning */
  predicate SettlesPending(c: Coordinator, ev: Event) {
    ev.RefreshSettles? && c.inFlight.Some?
  }

  /** The settlements of pending refreshes along a trace */
  function PendingSettles(opts: Options, c: Coordinator, evs: seq<Event>): nat
    decreases |evs|
  {
    if |evs| == 0 then 0
    else (if SettlesPending(c, evs[0]) then 1 else 0) + PendingSettles(opts, Handle(opts, c, evs[0]).next, evs[1..])
  }

  lemma {:induction false} CountRefreshCallsAppend(a: seq<Action>, b: seq<Action>)
    ensures CountRefreshCalls(a + b) == CountRefreshCalls(a) + CountRefreshCalls(b)
  {
    if |a| == 0 {
      assert a + b == b;
    } else {
      assert (a + b)[1..] == a[1..] + b;
      CountRefreshCallsAppend(a[1..], b);
    }
  }

  lemma {:induction false} NoRefreshCallsInQueue(queue: seq<RequestConfig>, error: Option<AxiosError>)
    ensures CountRefreshCalls(ProcessQueue(queue, error)) == 0
  {
    if |queue| > 0 {
      var r := ProcessQueue(queue, error);
      NoRefreshCallsInQueue(queue[1..], error);
      assert r[1..] == ProcessQueue(queue[1..], error);
    }
  }

  function Running(c: Coordinator): nat {
    if c.isRefreshing then 1 else 0
  }

  lemma HandleCountsRefreshCalls(opts: Options, c: Coordinator, ev: Event)
    ensures var s := Handle(opts, c, ev);
            CountRefreshCalls(s.actions) + Running(c) <= Running(s.next) + (if SettlesPending(c, ev) then 1 else 0)
    ensures var s := Handle(opts, c, ev);
            Valid(c) ==> CountRefreshCalls(s.actions) + Running(c) == Running(s.next) + (if SettlesPending(c, ev) then 1 else 0)
  {
    if ev.RefreshSettles? && c.inFlight.Some? {
      SettleCallsNothing(opts, c, ev.outcome);
    }
  }

  /** A settlement never calls `refreshToken` */
  lemma SettleCallsNothing(opts: Options, c: Coordinator, outcome: Settled)
    requires c.inFlight.Some?
    ensures CountRefreshCalls(Handle(opts, c, RefreshSettles(outcome)).actions) == 0
  {
    var f := c.inFlight.value;
    match outcome
    case Refreshed =>
      NoRefreshCallsInQueue(c.failedQueue, None);
      CountRefreshCallsAppend(ProcessQueue(c.failedQueue, None), [RetriedOriginal(f.original)]);
    case NotRefreshed =>
      RejectionCallsNothing(opts, c.failedQueue, f.error, OriginalRejected(WithError(f.error)));
    case RefreshThrew(x) =>
      RejectionCallsNothing(opts, c.failedQueue, f.error, OriginalRejected(WithThrown(x)));
  }

  lemma RejectionCallsNothing(opts: Options, queue: seq<RequestConfig>, e: AxiosError, last: Action)
    requires !last.RefreshCalled?
    ensures CountRefreshCalls(ProcessQueue(queue, Some(e)) + NotifyFailed(opts, e) + [last]) == 0
  {
    NoRefreshCallsInQueue(queue, Some(e));
    CountRefreshCallsAppend(ProcessQueue(queue, Some(e)), NotifyFailed(opts, e));
    CountRefreshCallsAppend(ProcessQueue(queue, Some(e)) + NotifyFailed(opts, e), [last]);
  }

  /** At most one refresh at a time: over any trace, the calls to
      `refreshToken` exceed the settlements of pending refreshes by at most
      one, and by exactly one only while a refresh is still running at the
      end; from a valid state the count is exact */
  lemma {:induction false} SingleFlight(opts: Options, c: Coordinator, evs: seq<Event>)
    ensures var r := Run(opts, c, evs);
            CountRefreshCalls(r.actions) + Running(c) <= Running(r.next) + PendingSettles(opts, c, evs)
    ensures var r := Run(opts, c, evs);
            Valid(c) ==> CountRefreshCalls(r.actions) + Running(c) == Running(r.next) + PendingSettles(opts, c, evs)
    decreases |evs|
  {
    if |evs| > 0 {
      var first := Handle(opts, c, evs[0]);
      var rest := Run(opts, first.next, evs[1..]);
      HandleCountsRefreshCalls(opts, c, evs[0]);
      if Valid(c) {
        HandleKeepsValid(opts, c, evs[0]);
      }
      SingleFlight(opts, first.next, evs[1..]);
      CountRefreshCallsAppend(first.actions, rest.actions);
    }
  }

  function Errors(es: seq<AxiosError>): seq<Event> {
    if |es| == 0 then [] else [ErrorArrives(es[0])] + Errors(es[1..])
  }

  function Configs(es: seq<AxiosError>): seq<RequestConfig>
    requires forall i :: 0 <= i < |es| ==> es[i].config.Some?
  {
    if |es| == 0 then [] else [es[0].config.value] + Configs(es[1..])
  }

  function QueuedAll(qs: seq<RequestConfig>): seq<Action> {
    if |qs| == 0 then [] else [Queued(qs[0])] + QueuedAll(qs[1..])
  }

  predicate AllEligible(opts: Options, es: seq<AxiosError>) {
    forall i :: 0 <= i < |es| ==> Eligible(opts, es[i])
  }

  /** While a refresh runs, a burst of eligible errors is queued in arrival
      order and nothing else happens */
  lemma {:induction false} BurstIsQueued(opts: Options, c: Coordinator, es: seq<AxiosError>)
    requires c.isRefreshing && AllEligible(opts, es)
    ensures var r := Run(opts, c, Errors(es));
            && r.actions == QueuedAll(Configs(es))
            && r.next == c.(failedQueue := c.failedQueue + Configs(es))
    decreases |es|
  {
    if |es| == 0 {
      assert c.failedQueue + [] == c.failedQueue;
    } else {
      var cfg := es[0].config.value;
      var c1 := c.(failedQueue := c.failedQueue + [cfg]);
      EnqueueStep(opts, c, es[0]);
      RunCons(opts, c, ErrorArrives(es[0]), Errors(es[1..]));
      assert AllEligible(opts, es[1..]);
      BurstIsQueued(opts, c1, es[1..]);
      AppendAssoc(c.failedQueue, [cfg], Configs(es[1..]));
    }
  }

  /** A trace that starts with `ev` */
  lemma RunCons(opts: Options, c: Coordinator, ev: Event, rest: seq<Event>)
    ensures var first := Handle(opts, c, ev);
            var tail := Run(opts, first.next, rest);
            Run(opts, c, [ev] + rest) == Step(tail.next, first.actions + tail.actions)
  {
    TailOfAppend([ev], rest);
  }

  lemma EnqueueStep(opts: Options, c: Coordinator, e: AxiosError)
    requires c.isRefreshing && Eligible(opts, e)
    ensures Handle(opts, c, ErrorArrives(e)) == Step(c.(failedQueue := c.failedQueue + [e.config.value]), [Queued(e.config.value)])
  {
  }

  /** N eligible errors reach an idle coordinator and the refresh succeeds:
      `refreshToken` is called once, the other N-1 requests are queued and
      then replayed in arrival order, and only then is the first request
      retried. The coordinator ends idle. */
  lemma BurstThenRefreshed(opts: Options, first: AxiosError, others: seq<AxiosError>)
    requires Eligible(opts, first) && AllEligible(opts, others)
    ensures var r := Run(opts, Idle, Errors([first] + others) + [RefreshSettles(Refreshed)]);
            && r.actions == [RefreshCalled] + QueuedAll(Configs(others))
                            + ProcessQueue(Configs(others), None) + [RetriedOriginal(first.config.value)]
            && r.next == Idle
  {
    BurstRun(opts, first, others, Refreshed);
  }

  /** The same burst when the refresh reports failure: every queued request
      is rejected with the first request's error, `onRefreshTokenFailed` is
      called once with it when configured, and the first request is rejected
      with that same error */
  lemma BurstThenNotRefreshed(opts: Options, first: AxiosError, others: seq<AxiosError>)
    requires Eligible(opts, first) && AllEligible(opts, others)
    ensures var r := Run(opts, Idle, Errors([first] + others) + [RefreshSettles(NotRefreshed)]);
            && r.actions == [RefreshCalled] + QueuedAll(Configs(others))
                            + ProcessQueue(Configs(others), Some(first)) + NotifyFailed(opts, first)
                            + [OriginalRejected(WithError(first))]
            && r.next == Idle
  {
    BurstRun(opts, first, others, NotRefreshed);
  }

  /** And when the refresh throws: the queue is still rejected with the first
      request's error, but the first request is rejected with what was thrown */
  lemma BurstThenThrew(opts: Options, first: AxiosError, others: seq<AxiosError>, thrown: string)
    requires Eligible(opts, first) && AllEligible(opts, others)
    ensures var r := Run(opts, Idle, Errors([first] + others) + [RefreshSettles(RefreshThrew(thrown))]);
            && r.actions == [RefreshCalled] + QueuedAll(Configs(others))
                            + ProcessQueue(Configs(others), Some(first)) + NotifyFailed(opts, first)
                            + [OriginalRejected(WithThrown(thrown))]
            && r.next == Idle
  {
    BurstRun(opts, first, others, RefreshThrew(thrown));
  }

  lemma BurstRun(opts: Options, first: AxiosError, others: seq<AxiosError>, outcome: Settled)
    requires Eligible(opts, first) && AllEligible(opts, others)
    ensures var started := Coordinator(true, [], Some(Flight(first, first.config.value)));
            var queued := started.(failedQueue := Configs(others));
            var r := Run(opts, Idle, Errors([first] + others) + [RefreshSettles(outcome)]);
            && r.actions == [RefreshCalled] + QueuedAll(Configs(others)) + Handle(opts, queued, RefreshSettles(outcome)).actions
            && r.next == Idle
  {
    var started := Coordinator(true, [], Some(Flight(first, first.config.value)));
    var queued := started.(failedQueue := Configs(others));
    var settle := [RefreshSettles(outcome)];
    ErrorsCons(first, others);
    AppendAssoc([ErrorArrives(first)], Errors(others), settle);
    RunCons(opts, Idle, ErrorArrives(first), Errors(others) + settle);
    BurstIsQueued(opts, started, others);
    EmptyFirst(started.failedQueue, Configs(others));
    RunAppend(opts, started, Errors(others), settle);
    SettleOnce(opts, queued, outcome);
    AppendAssoc([RefreshCalled], QueuedAll(Configs(others)), Handle(opts, queued, RefreshSettles(outcome)).actions);
  }

  lemma ErrorsCons(first: AxiosError, others: seq<AxiosError>)
    ensures Errors([first] + others) == [ErrorArrives(first)] + Errors(others)
  {
    TailOfAppend([first], others);
  }

  /** A trace of one settlement is that settlement's step */
  lemma SettleOnce(opts: Options, c: Coordinator, outcome: Settled)
    ensures Run(opts, c, [RefreshSettles(outcome)]) == Handle(opts, c, RefreshSettles(outcome))
  {
    var s := Handle(opts, c, RefreshSettles(outcome));
    assert [RefreshSettles(outcome)][1..] == [];
    assert s.actions + [] == s.actions;
  }

  lemma {:induction false} RunAppend(opts: Options, c: Coordinator, a: seq<Event>, b: seq<Event>)
    ensures var ra := Run(opts, c, a);
            var rb := Run(opts, ra.next, b);
            Run(opts, c, a + b) == Step(rb.next, ra.actions + rb.actions)
    decreases |a|
  {
    if |a| == 0 {
      EmptyFirst(a, b);
      EmptyFirst(Run(opts, c, a).actions, Run(opts, c, b).actions);
    } else {
      var first := Handle(opts, c, a[0]);
      TailOfAppend(a, b);
      RunAppend(opts, first.next, a[1..], b);
      var ra := Run(opts, first.next, a[1..]);
      AppendAssoc(first.actions, ra.actions, Run(opts, ra.next, b).actions);
    }
  }

  /** Every settlement ends with `isRefreshing` false and the queue drained,
      whatever the outcome */
  lemma SettleResets(opts: Options, c: Coordinator, outcome: Settled)
    requires c.inFlight.Some?
    ensures Handle(opts, c, RefreshSettles(outcome)).next == Idle
  {
  }

  /** Several instances, each with its own options and coordinator, receiving
      events tagged with the instance they happen on */
  datatype Tagged<T> = Tagged(instance: nat, item: T)

  predicate Addressed(evs: seq<Tagged<Event>>, n: nat) {
    forall i :: 0 <= i < |evs| ==> evs[i].instance < n
  }

  function Tag(k: nat, actions: seq<Action>): seq<Tagged<Action>> {
    if |actions| == 0 then [] else [Tagged(k, actions[0])] + Tag(k, actions[1..])
  }

  /** The items tagged with instance `k`, in order */
  function Of<T>(xs: seq<Tagged<T>>, k: nat): seq<T> {
    if |xs| == 0 then []
    else (if xs[0].instance == k then [xs[0].item] else []) + Of(xs[1..], k)
  }

  datatype Instances = Instances(states: seq<Coordinator>, actions: seq<Tagged<Action>>)

  function RunInstances(opts: seq<Options>, cs: seq<Coordinator>, evs: seq<Tagged<Event>>): (r: Instances)
    requires |opts| == |cs| && Addressed(evs, |cs|)
    ensures |r.states| == |cs|
    decreases |evs|
  {
    if |evs| == 0 then Instances(cs, [])
    else
      var k := evs[0].instance;
      var s := Handle(opts[k], cs[k], evs[0].item);
      var rest := RunInstances(opts, cs[k := s.next], evs[1..]);
      Instances(rest.states, Tag(k, s.actions) + rest.actions)
  }

  /** Refresh state is local to each instance: whatever the interleaving,
      every instance ends where it would have on its own events alone and
      does exactly what it would have done alone */
  lemma {:induction false} InstancesAreIsolated(opts: seq<Options>, cs: seq<Coordinator>, evs: seq<Tagged<Event>>, k: nat)
    requires |opts| == |cs| && Addressed(evs, |cs|) && k < |cs|
    ensures var r := RunInstances(opts, cs, evs);
            var alone := Run(opts[k], cs[k], Of(evs, k));
            r.states[k] == alone.next && Of(r.actions, k) == alone.actions
    decreases |evs|
  {
    if |evs| > 0 {
      var j := evs[0].instance;
      var s := Handle(opts[j], cs[j], evs[0].item);
      var cs1 := cs[j := s.next];
      var rest := RunInstances(opts, cs1, evs[1..]);
      InstancesAreIsolated(opts, cs1, evs[1..], k);
      OfAppend(Tag(j, s.actions), rest.actions, k);
      OfTag(j, s.actions, k);
      if j == k {
        assert Of(evs, k) == [evs[0].item] + Of(evs[1..], k);
        assert Of(evs, k)[1..] == Of(evs[1..], k);
      } else {
        assert Of(evs, k) == Of(evs[1..], k);
      }
    }
  }

  lemma {:induction false} OfAppend<T>(a: seq<Tagged<T>>, b: seq<Tagged<T>>, k: nat)
    ensures Of(a + b, k) == Of(a, k) + Of(b, k)
  {
    if |a| == 0 {
      assert a + b == b;
    } else {
      var here := if a[0].instance == k then [a[0].item] else [];
      assert (a + b)[0] == a[0];
      assert (a + b)[1..] == a[1..] + b;
      assert Of(a + b, k) == here + Of(a[1..] + b, k);
      OfAppend(a[1..], b, k);
      assert Of(a, k) == here + Of(a[1..], k);
    }
  }

  lemma {:induction false} OfTag(j: nat, actions: seq<Action>, k: nat)
    ensures Of(Tag(j, actions), k) == if j == k then actions else []
  {
    if |actions| > 0 {
      OfTag(j, actions[1..], k);
    }
  }

  /** What `createAxiosInstance` sets up: the merged configuration and a
      coordinator of its own, not refreshing and with nothing queued */
  datatype Instance = Instance(config: RequestConfig, coordinator: Coordinator)

  function CreateInstance(baseUrl: string, axiosConfig: Option<RequestConfig>): (i: Instance)
    ensures Valid(i.coordinator) && !i.coordinator.isRefreshing && i.coordinator.failedQueue == []
    ensures axiosConfig.None? ==> i.config == Defaults(baseUrl)
  {
    NoConfigGivesDefaults(baseUrl);
    Instance(InstanceConfig(baseUrl, axiosConfig), Idle)
  }
}
