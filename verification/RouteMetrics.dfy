/**
 The bounded route labels and the in-flight gauge of the metrics registry (`backend/app/metrics.py`).
 The label of a path depends on which labels exist already, and the middleware asks for it twice.
 */
module RouteMetrics {
  import opened Sequences
  import opened Wrappers

  const MAX_ROUTE_LABELS: nat := 256
  const MAX_PATH: nat := 128
  const UNMATCHED: string := "<unmatched>"
  const OTHER: string := "<other>"

  // ---------------------------------------------------------------- one route

  /** The text up to the first question mark. */
  function BeforeQuery(path: string): (p: string)
    ensures '?' !in p
    ensures '?' !in path ==> p == path
    ensures p <= path
  {
    if path == "" || path[0] == '?' then ""
    else
      assert path == [path[0]] + path[1..];
      [path[0]] + BeforeQuery(path[1..])
  }

  /** A template path without a query, or the label of unmatched routes. */
  predicate IsCandidate(route: string) {
    route == UNMATCHED || (route != "" && route[0] == '/' && |route| <= MAX_PATH && '?' !in route)
  }

  /** What a path asks to be labelled with. */
  function Candidate(path: Option<string>): (candidate: string)
    ensures IsCandidate(candidate)
  {
    var given := if path.Some? && path.value != "" then BeforeQuery(path.value) else UNMATCHED;
    if given == "" || given[0] != '/' || |given| > MAX_PATH then UNMATCHED else given
  }

  datatype Labelled = Labelled(route: string, labels: set<string>)

  /** The label of a path, given the labels that exist; a new one is added while there is room. */
  function LabelOf(labels: set<string>, path: Option<string>): Labelled {
    var candidate := Candidate(path);
    if candidate in labels then Labelled(candidate, labels)
    else if |labels| >= MAX_ROUTE_LABELS then Labelled(OTHER, labels)
    else Labelled(candidate, labels + {candidate})
  }

  /** An absolute path that is not too long asks for its own label, whatever its query; all else is unmatched. */
  lemma CandidateExactly(path: string, query: string)
    requires '?' !in path
    ensures path != "" && path[0] == '/' && |path| <= MAX_PATH ==>
      Candidate(Some(path)) == Candidate(Some(path + "?" + query)) == path
    ensures path == "" || path[0] != '/' || |path| > MAX_PATH ==>
      Candidate(Some(path)) == Candidate(Some(path + "?" + query)) == UNMATCHED
    ensures Candidate(None) == UNMATCHED
  {
    hide BeforeQuery;
    QueryIsDropped(path, query);
    CandidateOf(path, path);
    CandidateOf(path + "?" + query, path);
  }

  lemma CandidateOf(given: string, path: string)
    requires given != "" ==> BeforeQuery(given) == path
    requires given == "" ==> path == ""
    ensures Candidate(Some(given)) ==
      if path != "" && path[0] == '/' && |path| <= MAX_PATH then path else UNMATCHED
  {
    hide BeforeQuery;
  }

  lemma {:induction false} QueryIsDropped(path: string, query: string)
    requires '?' !in path
    ensures BeforeQuery(path + "?" + query) == path && BeforeQuery(path) == path
  {
    if path == "" {
      assert ("" + "?" + query)[0] == '?';
    } else {
      assert (path + "?" + query)[1..] == path[1..] + "?" + query && [path[0]] + path[1..] == path;
      QueryIsDropped(path[1..], query);
    }
  }

  /** A label that was given out stays one's candidate, except that the label of the rest is no route. */
  lemma CandidateOfLabel(route: string)
    requires IsCandidate(route) || route == OTHER
    ensures Candidate(Some(route)) == if route == OTHER then UNMATCHED else route
    ensures !IsCandidate(OTHER)
  {
    assert '?' !in route && route != "";
    assert BeforeQuery(route) == route;
    assert OTHER[0] == '<' && UNMATCHED[0] == '<';
  }

  ghost predicate ValidLabels(labels: set<string>) {
    |labels| <= MAX_ROUTE_LABELS && forall l | l in labels :: IsCandidate(l)
  }

  /** The labels that a label given out for some path can be. */
  predicate Settled(labels: set<string>, route: string) {
    route in labels || (route == OTHER && |labels| == MAX_ROUTE_LABELS)
  }

  lemma LabelStep(labels: set<string>, path: Option<string>)
    requires ValidLabels(labels)
    ensures ValidLabels(LabelOf(labels, path).labels) && labels <= LabelOf(labels, path).labels
    ensures Settled(LabelOf(labels, path).labels, LabelOf(labels, path).route)
    ensures |labels| == MAX_ROUTE_LABELS ==> LabelOf(labels, path).labels == labels
  {
    hide IsCandidate, Candidate;
    assert IsCandidate(Candidate(path));
  }

  /**
   Asking again with a label that was given out adds no label; and the answer is the same for as
   long as labels are only added.
   */
  lemma SecondLabelIsStable(labels: set<string>, later: set<string>, route: string)
    requires ValidLabels(labels) && ValidLabels(later) && labels <= later && Settled(labels, route)
    ensures LabelOf(labels, Some(route)).labels == labels
    ensures LabelOf(labels, Some(route)).route == LabelOf(later, Some(route)).route
    ensures Settled(labels, LabelOf(labels, Some(route)).route)
  {
    hide IsCandidate, Candidate;
    CandidateOfLabel(route);
    SubsetSize(labels, later);
  }

  // ---------------------------------------------------------------- which paths get a route of their own

  /** The labels after a sequence of requests for one. */
  function LabelsAfter(candidates: seq<Option<string>>): set<string> {
    if candidates == [] then {}
    else LabelOf(LabelsAfter(candidates[..|candidates| - 1]), candidates[|candidates| - 1]).labels
  }

  function Candidates(paths: seq<Option<string>>): (candidates: seq<string>)
    ensures |candidates| == |paths|
  {
    if paths == [] then [] else Candidates(paths[..|paths| - 1]) + [Candidate(paths[|paths| - 1])]
  }

  /** The labels are the first 256 distinct candidates. */
  lemma {:induction false} FirstCandidatesGetLabels(paths: seq<Option<string>>)
    ensures LabelsAfter(paths) == SetOf(Take(Unique(Candidates(paths)), MAX_ROUTE_LABELS))
    ensures |LabelsAfter(paths)| == Min(|Unique(Candidates(paths))|, MAX_ROUTE_LABELS)
  {
    if paths != [] {
      hide Candidate;
      var n := |paths| - 1;
      var before := Candidates(paths[..n]);
      var unique := Unique(before);
      FirstCandidatesGetLabels(paths[..n]);
      assert Candidates(paths) == before + [Candidate(paths[n])];
      AddCandidate(before, Candidate(paths[n]));
      UniqueIsDistinct(Candidates(paths));
      DistinctSize(Take(Unique(Candidates(paths)), MAX_ROUTE_LABELS));
    }
  }

  /** One more candidate is one more distinct one unless it was there; only among the first 256 does it count. */
  lemma AddCandidate(before: seq<string>, candidate: string)
    ensures var labels := SetOf(Take(Unique(before), MAX_ROUTE_LABELS));
      SetOf(Take(Unique(before + [candidate]), MAX_ROUTE_LABELS)) ==
        if candidate in labels || |Unique(before)| >= MAX_ROUTE_LABELS then labels else labels + {candidate}
  {
    var unique := Unique(before);
    assert (before + [candidate])[..|before|] == before;
    if |unique| < MAX_ROUTE_LABELS {
      assert Take(unique, MAX_ROUTE_LABELS) == unique;
      if candidate !in unique {
        assert Take(unique + [candidate], MAX_ROUTE_LABELS) == unique + [candidate];
      }
    } else {
      assert Take(unique + [candidate], MAX_ROUTE_LABELS) == Take(unique, MAX_ROUTE_LABELS);
    }
  }

  // ---------------------------------------------------------------- methods

  const HTTP_METHODS: set<string> := {"CONNECT", "DELETE", "GET", "HEAD", "OPTIONS", "PATCH", "POST", "PUT", "TRACE"}
  const OTHER_METHOD: string := "OTHER"

  /** `normalize` stands for stripping and `str.upper`, which leave the known methods as they are. */
  function SafeMethod(normalize: string -> string, value: string): (safe: string)
    ensures safe in HTTP_METHODS || safe == OTHER_METHOD
  {
    if normalize(value) in HTTP_METHODS then normalize(value) else OTHER_METHOD
  }

  lemma SafeMethodTwice(normalize: string -> string, value: string)
    requires forall m | m in HTTP_METHODS || m == OTHER_METHOD :: normalize(m) == m
    ensures SafeMethod(normalize, SafeMethod(normalize, value)) == SafeMethod(normalize, value)
  {
    assert OTHER_METHOD !in HTTP_METHODS;
  }

  /** Each known method is a label of its own, all others share one. */
  lemma MethodLabels(normalize: string -> string, value: string)
    ensures normalize(value) in HTTP_METHODS ==> SafeMethod(normalize, value) == normalize(value)
    ensures normalize(value) !in HTTP_METHODS ==>
      SafeMethod(normalize, value) == OTHER_METHOD && SafeMethod(normalize, value) !in HTTP_METHODS
    ensures |HTTP_METHODS| == 9
  {
    var some := {"CONNECT", "DELETE", "GET", "HEAD", "OPTIONS"};
    assert some !! {"PATCH", "POST", "PUT", "TRACE"};
    assert |some| == 5 && |{"PATCH", "POST", "PUT", "TRACE"}| == 4;
    assert HTTP_METHODS == some + {"PATCH", "POST", "PUT", "TRACE"};
  }

  /** Requests of different known methods move different series, whatever their routes. */
  lemma MethodsHaveTheirSeries(normalize: string -> string, a: string, b: string, routeA: string, routeB: string)
    requires a in HTTP_METHODS && b in HTTP_METHODS && a != b && normalize(a) == a && normalize(b) == b
    ensures (SafeMethod(normalize, a), routeA) != (SafeMethod(normalize, b), routeB)
  {
    hide SafeMethod;
    MethodLabels(normalize, a);
    MethodLabels(normalize, b);
  }

  // ---------------------------------------------------------------- requests over the shared registry

  /** A request and the label it was counted under, once it was. */
  datatype Live = Live(verb: string, pending: string, counted: Option<string>, left: bool)

  datatype State = State(
    labels: set<string>, gauge: map<(string, string), int>, requests: seq<Live>, given: set<string>)

  /** A request resolves its route, enters, and leaves; all else that asks for labels is `Record`. */
  datatype Event =
    | Resolve(verb: string, path: Option<string>)
    | Enter(request: nat)
    | Leave(request: nat)
    | Record(path: Option<string>)

  predicate Enabled(s: State, e: Event) {
    match e
    case Resolve(_, _) => true
    case Enter(r) => r < |s.requests| && s.requests[r].counted.None?
    case Leave(r) => r < |s.requests| && s.requests[r].counted.Some? && !s.requests[r].left
    case Record(_) => true
  }

  function Value(gauge: map<(string, string), int>, series: (string, string)): int {
    if series in gauge then gauge[series] else 0
  }

  function Add(gauge: map<(string, string), int>, series: (string, string), delta: int): map<(string, string), int> {
    gauge[series := Value(gauge, series) + delta]
  }

  function Step(normalize: string -> string, s: State, e: Event): State {
    if !Enabled(s, e) then s
    else match e
      case Resolve(m, path) =>
        var r := LabelOf(s.labels, path);
        s.(labels := r.labels, given := s.given + {r.route}, requests := s.requests + [Live(m, r.route, None, false)])
      case Enter(i) =>
        var live := s.requests[i];
        var r := LabelOf(s.labels, Some(live.pending));
        s.(labels := r.labels, given := s.given + {r.route},
           gauge := Add(s.gauge, (SafeMethod(normalize, live.verb), r.route), 1),
           requests := s.requests[i := live.(counted := Some(r.route))])
      case Leave(i) =>
        var live := s.requests[i];
        var r := LabelOf(s.labels, Some(live.pending));
        s.(labels := r.labels, given := s.given + {r.route},
           gauge := Add(s.gauge, (SafeMethod(normalize, live.verb), r.route), -1),
           requests := s.requests[i := live.(left := true)])
      case Record(path) =>
        var r := LabelOf(s.labels, path);
        s.(labels := r.labels, given := s.given + {r.route})
  }

  const START := State({}, map[], [], {})

  function Run(normalize: string -> string, events: seq<Event>): State {
    if events == [] then START else Step(normalize, Run(normalize, events[..|events| - 1]), events[|events| - 1])
  }

  /** The requests of a method that were counted under a label and are not over. */
  function Inside(normalize: string -> string, requests: seq<Live>, series: (string, string)): nat {
    if requests == [] then 0
    else
      Inside(normalize, requests[..|requests| - 1], series)
      + (if IsInside(normalize, requests[|requests| - 1], series) then 1 else 0)
  }

  predicate IsInside(normalize: string -> string, live: Live, series: (string, string)) {
    live.counted == Some(series.1) && SafeMethod(normalize, live.verb) == series.0 && !live.left
  }

  /** What is known of a request: its label is settled, and so is what it was counted under. */
  predicate GoodLive(labels: set<string>, live: Live) {
    && Settled(labels, live.pending)
    && (live.left ==> live.counted.Some?)
    && (live.counted.Some? ==> live.counted.value == LabelOf(labels, Some(live.pending)).route)
  }

  ghost predicate Inv(normalize: string -> string, s: State) {
    && ValidLabels(s.labels)
    && (forall i | 0 <= i < |s.requests| :: GoodLive(s.labels, s.requests[i]))
    && (forall l | l in s.given :: Settled(s.labels, l))
    && (forall series :: Value(s.gauge, series) == Inside(normalize, s.requests, series))
  }

  lemma InsideLast(normalize: string -> string, requests: seq<Live>, live: Live, series: (string, string))
    ensures Inside(normalize, requests + [live], series)
      == Inside(normalize, requests, series) + (if IsInside(normalize, live, series) then 1 else 0)
  {
    assert (requests + [live])[..|requests|] == requests;
  }

  lemma {:induction false} InsideUpdate(
    normalize: string -> string, requests: seq<Live>, i: nat, live: Live, series: (string, string))
    requires i < |requests|
    ensures Inside(normalize, requests[i := live], series) ==
      Inside(normalize, requests, series)
      - (if IsInside(normalize, requests[i], series) then 1 else 0)
      + (if IsInside(normalize, live, series) then 1 else 0)
  {
    hide IsInside;
    var n := |requests| - 1;
    if i == n {
      assert requests[i := live][..n] == requests[..n];
    } else {
      assert requests[i := live][..n] == requests[..n][i := live];
      InsideUpdate(normalize, requests[..n], i, live, series);
    }
  }

  lemma SettledLater(labels: set<string>, later: set<string>, route: string)
    requires ValidLabels(later) && labels <= later && Settled(labels, route)
    ensures Settled(later, route)
  {
    SubsetSize(labels, later);
  }

  lemma GoodLiveLater(labels: set<string>, later: set<string>, live: Live)
    requires ValidLabels(labels) && ValidLabels(later) && labels <= later && GoodLive(labels, live)
    ensures GoodLive(later, live)
  {
    hide LabelOf, ValidLabels, Settled;
    SettledLater(labels, later, live.pending);
    SecondLabelIsStable(labels, later, live.pending);
  }

  /** The path an event asks a label for. */
  function AskedPath(s: State, e: Event): Option<string>
    requires Enabled(s, e)
  {
    match e
    case Resolve(_, path) => path
    case Enter(i) => Some(s.requests[i].pending)
    case Leave(i) => Some(s.requests[i].pending)
    case Record(path) => path
  }

  lemma StepKeepsLabels(normalize: string -> string, s: State, e: Event)
    requires Inv(normalize, s) && Enabled(s, e)
    ensures Step(normalize, s, e).labels == LabelOf(s.labels, AskedPath(s, e)).labels
    ensures ValidLabels(Step(normalize, s, e).labels) && s.labels <= Step(normalize, s, e).labels
    ensures forall l | l in Step(normalize, s, e).given :: Settled(Step(normalize, s, e).labels, l)
  {
    hide LabelOf, ValidLabels, Settled, GoodLive;
    LabelStep(s.labels, AskedPath(s, e));
    forall l | l in s.given ensures Settled(Step(normalize, s, e).labels, l) {
      SettledLater(s.labels, Step(normalize, s, e).labels, l);
    }
  }

  lemma StepKeepsRequests(normalize: string -> string, s: State, e: Event)
    requires Inv(normalize, s) && Enabled(s, e)
    ensures forall i | 0 <= i < |Step(normalize, s, e).requests| ::
      GoodLive(Step(normalize, s, e).labels, Step(normalize, s, e).requests[i])
  {
    hide LabelOf, ValidLabels, Settled, Inside;
    StepKeepsLabels(normalize, s, e);
    LabelStep(s.labels, AskedPath(s, e));
    if e.Enter? || e.Leave? {
      SecondLabelIsStable(s.labels, s.labels, s.requests[e.request].pending);
    }
    forall i | 0 <= i < |s.requests| ensures GoodLive(Step(normalize, s, e).labels, s.requests[i]) {
      GoodLiveLater(s.labels, Step(normalize, s, e).labels, s.requests[i]);
    }
  }

  /** The label taken off at the end is the one put on at the start, so the gauge counts what is inside. */
  lemma StepKeepsGauge(normalize: string -> string, s: State, e: Event, series: (string, string))
    requires Inv(normalize, s) && Enabled(s, e)
    ensures Value(Step(normalize, s, e).gauge, series) == Inside(normalize, Step(normalize, s, e).requests, series)
  {
    hide LabelOf, ValidLabels, Settled, Inside;
    match e
    case Resolve(m, path) =>
      InsideLast(normalize, s.requests, Live(m, LabelOf(s.labels, path).route, None, false), series);
    case Enter(i) =>
      assert GoodLive(s.labels, s.requests[i]);
      InsideUpdate(normalize, s.requests, i, Step(normalize, s, e).requests[i], series);
    case Leave(i) =>
      assert GoodLive(s.labels, s.requests[i]);
      InsideUpdate(normalize, s.requests, i, Step(normalize, s, e).requests[i], series);
    case Record(_) =>
  }

  lemma StepKeepsInv(normalize: string -> string, s: State, e: Event)
    requires Inv(normalize, s)
    ensures Inv(normalize, Step(normalize, s, e))
  {
    if Enabled(s, e) {
      hide Step, ValidLabels, GoodLive, Settled, Inside;
      StepKeepsLabels(normalize, s, e);
      StepKeepsRequests(normalize, s, e);
      forall series
        ensures Value(Step(normalize, s, e).gauge, series) == Inside(normalize, Step(normalize, s, e).requests, series)
      {
        StepKeepsGauge(normalize, s, e, series);
      }
    }
  }

  lemma {:induction false} RunKeepsInv(normalize: string -> string, events: seq<Event>)
    ensures Inv(normalize, Run(normalize, events))
  {
    if events != [] {
      hide Inv;
      RunKeepsInv(normalize, events[..|events| - 1]);
      StepKeepsInv(normalize, Run(normalize, events[..|events| - 1]), events[|events| - 1]);
    }
  }

  /**
   Over every interleaving of requests: a request is taken off the series it was put on, and each
   series shows how many of its requests are inside, so it is never negative.
   */
  lemma GaugeIsConserved(normalize: string -> string, events: seq<Event>)
    ensures var s := Run(normalize, events);
      && (forall series :: Value(s.gauge, series) == Inside(normalize, s.requests, series))
      && (forall i: nat | Enabled(s, Leave(i)) ::
            LabelOf(s.labels, Some(s.requests[i].pending)).route == s.requests[i].counted.value)
  {
    hide Run, ValidLabels, Inside, LabelOf;
    RunKeepsInv(normalize, events);
    var s := Run(normalize, events);
    forall i: nat | Enabled(s, Leave(i))
      ensures LabelOf(s.labels, Some(s.requests[i].pending)).route == s.requests[i].counted.value
    {
      assert GoodLive(s.labels, s.requests[i]);
    }
  }

  /** Once all requests that entered have left, every series is back at 0. */
  lemma QuietGaugeIsZero(normalize: string -> string, events: seq<Event>, series: (string, string))
    requires forall live | live in Run(normalize, events).requests :: live.counted.Some? ==> live.left
    ensures Value(Run(normalize, events).gauge, series) == 0
  {
    hide Run;
    RunKeepsInv(normalize, events);
    NobodyInside(normalize, Run(normalize, events).requests, series);
  }

  lemma {:induction false} NobodyInside(normalize: string -> string, requests: seq<Live>, series: (string, string))
    requires forall live | live in requests :: live.counted.Some? ==> live.left
    ensures Inside(normalize, requests, series) == 0
  {
    if requests != [] {
      assert requests[|requests| - 1] in requests;
      NobodyInside(normalize, requests[..|requests| - 1], series);
    }
  }

  /** At most 257 labels are ever given out, and none carries a query. */
  lemma LabelsAreBounded(normalize: string -> string, events: seq<Event>)
    ensures |Run(normalize, events).given| <= MAX_ROUTE_LABELS + 1
    ensures forall l | l in Run(normalize, events).given :: '?' !in l
  {
    hide Run, GoodLive, Inside;
    RunKeepsInv(normalize, events);
    var s := Run(normalize, events);
    assert s.given <= s.labels + {OTHER};
    SubsetSize(s.given, s.labels + {OTHER});
    assert '?' !in UNMATCHED && '?' !in OTHER;
  }

  /** A request can always resolve, enter and leave: its series goes up by one and back. */
  lemma RequestsPass(normalize: string -> string, s: State, verb: string, path: Option<string>)
    requires Inv(normalize, s)
    ensures var n := |s.requests|;
      var resolved := Step(normalize, s, Resolve(verb, path));
      var entered := Step(normalize, resolved, Enter(n));
      var left := Step(normalize, entered, Leave(n));
      && |resolved.requests| == |entered.requests| == |left.requests| == n + 1
      && entered.requests[n].counted.Some? && left.requests[n].left
      && (var series := (SafeMethod(normalize, verb), entered.requests[n].counted.value);
          && Value(entered.gauge, series) == Value(s.gauge, series) + 1
          && Value(left.gauge, series) == Value(s.gauge, series))
  {
    hide SafeMethod, LabelOf, Inside, ValidLabels, Settled;
    var n := |s.requests|;
    var resolved := Step(normalize, s, Resolve(verb, path));
    StepKeepsInv(normalize, s, Resolve(verb, path));
    var entered := Step(normalize, resolved, Enter(n));
    StepKeepsInv(normalize, resolved, Enter(n));
    assert GoodLive(entered.labels, entered.requests[n]);
  }

  /** Whoever else asks for a label is given one that counts, too. */
  lemma RecordIsGiven(normalize: string -> string, s: State, path: Option<string>)
    ensures var next := Step(normalize, s, Record(path));
      && next == s.(labels := LabelOf(s.labels, path).labels, given := next.given)
      && next.given == s.given + {LabelOf(s.labels, path).route}
  {
    hide LabelOf;
  }

  /** The labels given out are all those that requests hold. */
  lemma {:induction false} HeldLabelsAreGiven(normalize: string -> string, events: seq<Event>)
    ensures var s := Run(normalize, events);
      forall live | live in s.requests ::
        live.pending in s.given && (live.counted.Some? ==> live.counted.value in s.given)
  {
    if events != [] {
      hide LabelOf, SafeMethod;
      var before, last := events[..|events| - 1], events[|events| - 1];
      HeldLabelsAreGiven(normalize, before);
      var s := Run(normalize, before);
      var next := Step(normalize, s, last);
      forall i | 0 <= i < |next.requests|
        ensures next.requests[i].pending in next.given
        ensures next.requests[i].counted.Some? ==> next.requests[i].counted.value in next.given
      {
        if i < |s.requests| { assert s.requests[i] in s.requests; }
      }
    }
  }

  // ---------------------------------------------------------------- the registry

  class MetricsRegistry {
    const normalize: string -> string
    var routeLabels: set<string>
    var inFlight: map<(string, string), int>

    constructor (normalize: string -> string)
      ensures this.normalize == normalize && routeLabels == {} && inFlight == map[]
    {
      this.normalize := normalize;
      routeLabels, inFlight := {}, map[];
    }

    method RouteLabel(path: Option<string>) returns (route: string)
      requires ValidLabels(routeLabels)
      modifies this`routeLabels
      ensures Labelled(route, routeLabels) == LabelOf(old(routeLabels), path)
      ensures ValidLabels(routeLabels) && old(routeLabels) <= routeLabels && Settled(routeLabels, route)
    {
      hide IsCandidate, BeforeQuery;
      LabelStep(routeLabels, path);
      var candidate := if path.Some? && path.value != "" then path.value else UNMATCHED;
      QueryOf(candidate);
      if '?' in candidate {
        candidate := BeforeQuery(candidate);
      }
      if candidate == "" || candidate[0] != '/' {
        candidate := UNMATCHED;
      }
      if |candidate| > MAX_PATH {
        candidate := UNMATCHED;
      }
      if candidate in routeLabels {
        return candidate;
      }
      if |routeLabels| >= MAX_ROUTE_LABELS {
        return OTHER;
      }
      routeLabels := routeLabels + {candidate};
      route := candidate;
    }

    /** A label that was given out before is asked for again: no label is added and its series moves. */
    method RecordHttpInFlight(verb: string, route: string, delta: int)
      requires ValidLabels(routeLabels)
      modifies this
      ensures var series := (SafeMethod(normalize, verb), LabelOf(old(routeLabels), Some(route)).route);
        inFlight == if delta == 0 then old(inFlight) else Add(old(inFlight), series, delta)
      ensures routeLabels == LabelOf(old(routeLabels), Some(route)).labels && ValidLabels(routeLabels)
      ensures Settled(old(routeLabels), route) ==> routeLabels == old(routeLabels)
    {
      hide LabelOf;
      if Settled(routeLabels, route) { SecondLabelIsStable(routeLabels, routeLabels, route); }
      var routeLabel := RouteLabel(Some(route));
      if delta == 0 {
        return;
      }
      inFlight := Add(inFlight, (SafeMethod(normalize, verb), routeLabel), delta);
    }
  }

  lemma QueryOf(path: string)
    ensures '?' !in path ==> BeforeQuery(path) == path
    ensures BeforeQuery(UNMATCHED) == UNMATCHED && UNMATCHED[0] != '/'
  {
    assert '?' !in UNMATCHED;
  }
}
