/** Alert evaluation (backend/internal/app/notification/service.go, EvaluateAlerts). Times are in
    nanoseconds; metric values are reals. */
module Alerts {
  import opened Wrappers

  const SECOND: int := 1_000_000_000

  type RuleId = nat
  type ServerId = nat

  datatype Metric = CpuPct | MemUsedPct | DiskUsedPct | Connections | OtherMetric

  datatype Comparator = Gt | Gte | Lt | Lte | OtherComparator {
    predicate Compare(value: real, threshold: real) {
      match this
      case Gt => value > threshold
      case Gte => value >= threshold
      case Lt => value < threshold
      case Lte => value <= threshold
      case OtherComparator => false
    }
  }

  /** target is the one server a server rule is for; perServer tells server rules from global ones. */
  datatype Rule = Rule(id: RuleId, perServer: bool, target: Option<ServerId>, metric: Metric, comparator: Comparator,
                       threshold: real, forSeconds: int)

  datatype Sample = Sample(server: ServerId, cpu: Option<real>, memUsed: Option<int>, memTotal: Option<int>,
                           diskUsed: Option<int>, diskTotal: Option<int>, connections: Option<int>)

  function Pct(used: Option<int>, total: Option<int>): Option<real> {
    if used.None? || total.None? || total.value == 0 then None
    else Some(used.value as real / total.value as real * 100.0)
  }

  function MetricValue(m: Metric, h: Sample): Option<real> {
    match m
    case CpuPct => h.cpu
    case MemUsedPct => Pct(h.memUsed, h.memTotal)
    case DiskUsedPct => Pct(h.diskUsed, h.diskTotal)
    case Connections => if h.connections.None? then None else Some(h.connections.value as real)
    case OtherMetric => None
  }

  type Key = (RuleId, ServerId)

  /** One evaluation of a rule on a server. */
  datatype Eval = Eval(key: Key, breaching: bool, forSeconds: int, now: int)

  datatype Event = Firing(key: Key) | Resolved(key: Key)

  datatype State = State(firing: set<Key>, breaching: map<Key, int>, events: seq<Event>)

  // ---- Specification -----------------------------------------------------------------------------

  function One(s: State, e: Eval): State {
    if !e.breaching then
      State(s.firing - {e.key}, s.breaching - {e.key}, if e.key in s.firing then s.events + [Resolved(e.key)] else s.events)
    else
      var since := if e.key in s.breaching then s.breaching[e.key] else e.now;
      var b := s.breaching[e.key := since];
      if e.key in s.firing || e.now - since < e.forSeconds * SECOND then s.(breaching := b)
      else State(s.firing + {e.key}, b, s.events + [Firing(e.key)])
  }

  function All(s: State, es: seq<Eval>): State
    decreases |es|
  {
    if es == [] then s else One(All(s, es[..|es| - 1]), es[|es| - 1])
  }

  predicate Applies(r: Rule, h: Sample) {
    (r.perServer ==> r.target == Some(h.server)) && MetricValue(r.metric, h).Some?
  }

  function EvalOf(r: Rule, h: Sample, now: int): seq<Eval> {
    if Applies(r, h) then
      [Eval((r.id, h.server), r.comparator.Compare(MetricValue(r.metric, h).value, r.threshold), r.forSeconds, now)]
    else []
  }

  function EvalsOfRule(r: Rule, samples: seq<Sample>, now: int): seq<Eval>
    decreases |samples|
  {
    if samples == [] then [] else EvalsOfRule(r, samples[..|samples| - 1], now) + EvalOf(r, samples[|samples| - 1], now)
  }

  /** The evaluations of one pass, rule by rule. */
  function Evals(rules: seq<Rule>, samples: seq<Sample>, now: int): seq<Eval>
    decreases |rules|
  {
    if rules == [] then [] else Evals(rules[..|rules| - 1], samples, now) + EvalsOfRule(rules[|rules| - 1], samples, now)
  }

  // ---- What is evaluated -------------------------------------------------------------------------

  /** v is used in percent of a total that is not zero. */
  predicate Percent(used: Option<int>, total: Option<int>, v: real) {
    used.Some? && total.Some? && total.value != 0 && v * total.value as real == 100.0 * used.value as real
  }

  /** The sample has this value of the metric. */
  predicate Measures(m: Metric, h: Sample, v: real) {
    || (m == CpuPct && h.cpu == Some(v))
    || (m == MemUsedPct && Percent(h.memUsed, h.memTotal, v))
    || (m == DiskUsedPct && Percent(h.diskUsed, h.diskTotal, v))
    || (m == Connections && h.connections.Some? && h.connections.value as real == v)
  }

  predicate Breaches(r: Rule, v: real) {
    || (r.comparator == Gt && v > r.threshold) || (r.comparator == Gte && !(v < r.threshold))
    || (r.comparator == Lt && v < r.threshold) || (r.comparator == Lte && !(v > r.threshold))
  }

  /** e is the evaluation of the rule on the sample: the rule is for its server or for all, the sample has
      the rule's metric, and the evaluation is breaching as that value compares with the threshold. */
  ghost predicate Evaluates(r: Rule, h: Sample, now: int, e: Eval) {
    && (!r.perServer || r.target == Some(h.server)) && e.key == (r.id, h.server) && e.forSeconds == r.forSeconds && e.now == now
    && exists v :: Measures(r.metric, h, v) && (e.breaching <==> Breaches(r, v))
  }

  lemma SameFactor(x: real, y: real, t: real)
    requires x * t == y * t && t != 0.0
    ensures x == y
  {
    assert x == x * t / t && y == y * t / t;
  }

  lemma PercentIff(used: Option<int>, total: Option<int>, v: real)
    ensures Percent(used, total, v) <==> Pct(used, total) == Some(v)
  {
    if used.Some? && total.Some? && total.value != 0 {
      var u, t := used.value as real, total.value as real;
      assert u / t * t == u;
      assert u / t * 100.0 * t == 100.0 * u;
      if v * t == 100.0 * u {
        SameFactor(v, u / t * 100.0, t);
      }
    }
  }

  lemma MeasuresIff(m: Metric, h: Sample, v: real)
    ensures Measures(m, h, v) <==> MetricValue(m, h) == Some(v)
  {
    PercentIff(h.memUsed, h.memTotal, v);
    PercentIff(h.diskUsed, h.diskTotal, v);
  }

  lemma OneEvaluatedIff(r: Rule, h: Sample, now: int, e: Eval)
    ensures e in EvalOf(r, h, now) <==> Evaluates(r, h, now, e)
  {
    forall v ensures Measures(r.metric, h, v) <==> MetricValue(r.metric, h) == Some(v) {
      MeasuresIff(r.metric, h, v);
    }
    if MetricValue(r.metric, h).Some? {
      var v := MetricValue(r.metric, h).value;
      assert Measures(r.metric, h, v);
      assert r.comparator.Compare(v, r.threshold) <==> Breaches(r, v);
    }
  }

  lemma {:induction false} RuleEvaluatedIff(r: Rule, samples: seq<Sample>, now: int, e: Eval)
    ensures e in EvalsOfRule(r, samples, now) <==> exists h :: h in samples && Evaluates(r, h, now, e)
    decreases |samples|
  {
    if samples != [] {
      var n := |samples| - 1;
      RuleEvaluatedIff(r, samples[..n], now, e);
      OneEvaluatedIff(r, samples[n], now, e);
      assert samples == samples[..n] + [samples[n]];
    }
  }

  /** A pass makes exactly these evaluations: every rule on every sample that it is for and whose metric
      the sample has. */
  lemma {:induction false} EvaluatedIff(rules: seq<Rule>, samples: seq<Sample>, now: int, e: Eval)
    ensures e in Evals(rules, samples, now) <==> exists r, h :: r in rules && h in samples && Evaluates(r, h, now, e)
    decreases |rules|
  {
    if rules != [] {
      var n := |rules| - 1;
      EvaluatedIff(rules[..n], samples, now, e);
      RuleEvaluatedIff(rules[n], samples, now, e);
      assert rules == rules[..n] + [rules[n]];
    }
  }

  // ---- The evaluator -----------------------------------------------------------------------------

  lemma {:induction false} AllAppend(s: State, a: seq<Eval>, b: seq<Eval>)
    ensures All(s, a + b) == All(All(s, a), b)
    decreases |b|
  {
    if b == [] {
      assert a + b == a;
    } else {
      assert (a + b)[..|a + b| - 1] == a + b[..|b| - 1];
      AllAppend(s, a, b[..|b| - 1]);
    }
  }

  lemma AllOne(s: State, es: seq<Eval>, e: Eval)
    ensures All(s, es + [e]) == One(All(s, es), e)
  {
    assert (es + [e])[..|es|] == es;
  }

  class Evaluator {
    var firing: set<Key>
    var breaching: map<Key, int>
    var events: seq<Event>

    constructor ()
      ensures Now() == State({}, map[], [])
    {
      firing, breaching, events := {}, map[], [];
    }

    function Now(): State
      reads this
    {
      State(firing, breaching, events)
    }

    method EvaluateOne(e: Eval)
      modifies this
      ensures Now() == One(old(Now()), e)
    {
      var key := e.key;
      if !e.breaching {
        if key in firing {
          events := events + [Resolved(key)];
        }
        firing := firing - {key};
        breaching := breaching - {key};
        return;
      }
      var since := e.now;
      if key in breaching {
        since := breaching[key];
      } else {
        breaching := breaching[key := e.now];
      }
      assert breaching == old(breaching)[key := since];
      if key in firing {
        return;
      }
      if e.now - since >= e.forSeconds * SECOND {
        firing := firing + {key};
        events := events + [Firing(key)];
      }
    }

    /** Checks the rules against the latest samples and emits an event for each transition. */
    method EvaluateAlerts(rules: seq<Rule>, samples: seq<Sample>, now: int)
      modifies this
      ensures Now() == All(old(Now()), Evals(rules, samples, now))
    {
      for r := 0 to |rules|
        invariant Now() == All(old(Now()), Evals(rules[..r], samples, now))
      {
        assert rules[..r + 1][..r] == rules[..r];
        ghost var before := Now();
        var rule := rules[r];
        for i := 0 to |samples|
          invariant Now() == All(before, EvalsOfRule(rule, samples[..i], now))
        {
          assert samples[..i + 1][..i] == samples[..i];
          var sample := samples[i];
          ghost var done := EvalsOfRule(rule, samples[..i], now);
          if rule.perServer && (rule.target.None? || rule.target.value != sample.server) {
            assert done + [] == done;
            continue;
          }
          var value := MetricValue(rule.metric, sample);
          if value.None? {
            assert done + [] == done;
            continue;
          }
          var e := Eval((rule.id, sample.server), rule.comparator.Compare(value.value, rule.threshold), rule.forSeconds, now);
          EvaluateOne(e);
          AllOne(before, done, e);
        }
        assert samples[..|samples|] == samples;
        AllAppend(old(Now()), Evals(rules[..r], samples, now), EvalsOfRule(rule, samples, now));
      }
      assert rules[..|rules|] == rules;
    }
  }

  // ---- Over every run of evaluations ---------------------------------------------------------------

  const START := State({}, map[], [])

  /** Where the present unbroken run of breaching evaluations of key began, if its last one breached. */
  function RunStart(es: seq<Eval>, key: Key): Option<nat>
    decreases |es|
  {
    if es == [] then None
    else
      var n := |es| - 1;
      var before := RunStart(es[..n], key);
      if es[n].key != key then before
      else if !es[n].breaching then None
      else if before.Some? then before else Some(n)
  }

  /** All evaluations of key from i on breached, and the one before i, if any, did not. */
  predicate UnbrokenFrom(es: seq<Eval>, key: Key, i: nat) {
    && i < |es| && es[i].key == key
    && (forall j :: i <= j < |es| && es[j].key == key ==> es[j].breaching)
    && (forall j :: 0 <= j < i && es[j].key == key && (forall k :: j < k < i ==> es[k].key != key) ==> !es[j].breaching)
  }

  /** key was evaluated last at j, without breaching, or never. */
  predicate NotBreaching(es: seq<Eval>, key: Key) {
    forall j :: 0 <= j < |es| && es[j].key == key && (forall k :: j < k < |es| ==> es[k].key != key) ==> !es[j].breaching
  }

  lemma UnbrokenMore(es: seq<Eval>, e: Eval, key: Key, i: nat)
    requires UnbrokenFrom(es, key, i) && (e.key == key ==> e.breaching)
    ensures UnbrokenFrom(es + [e], key, i)
  {
    var all := es + [e];
    assert forall j :: 0 <= j < |es| ==> all[j] == es[j];
  }

  lemma UnbrokenNew(es: seq<Eval>, e: Eval, key: Key)
    requires NotBreaching(es, key) && e.key == key && e.breaching
    ensures UnbrokenFrom(es + [e], key, |es|)
  {
    var all := es + [e];
    assert forall j :: 0 <= j < |es| ==> all[j] == es[j];
  }

  lemma NotBreachingMore(es: seq<Eval>, e: Eval, key: Key)
    requires if e.key == key then !e.breaching else NotBreaching(es, key)
    ensures NotBreaching(es + [e], key)
  {
    var all, n := es + [e], |es|;
    forall j | 0 <= j < |all| && all[j].key == key && (forall k :: j < k < |all| ==> all[k].key != key) ensures !all[j].breaching {
      if j < n {
        assert all[n].key != key && es[j] == all[j];
        assert forall k :: j < k < n ==> es[k] == all[k];
      }
    }
  }

  lemma RunStartMore(es: seq<Eval>, e: Eval, key: Key)
    ensures RunStart(es + [e], key)
         == if e.key != key then RunStart(es, key)
            else if !e.breaching then None
            else if RunStart(es, key).Some? then RunStart(es, key) else Some(|es|)
  {
    assert (es + [e])[..|es|] == es;
  }

  lemma {:induction false} RunStartIs(es: seq<Eval>, key: Key)
    ensures RunStart(es, key).Some? ==> UnbrokenFrom(es, key, RunStart(es, key).value)
    ensures RunStart(es, key).None? ==> NotBreaching(es, key)
    decreases |es|
  {
    if es != [] {
      var a, e := es[..|es| - 1], es[|es| - 1];
      assert es == a + [e];
      RunStartIs(a, key);
      RunStartMore(a, e, key);
      if RunStart(es, key).None? {
        NotBreachingMore(a, e, key);
      } else if RunStart(a, key).Some? {
        UnbrokenMore(a, e, key, RunStart(a, key).value);
      } else {
        UnbrokenNew(a, e, key);
      }
    }
  }

  /** The run of breaching evaluations that j ends has lasted long enough by j's own rule. */
  predicate LongEnough(es: seq<Eval>, i: nat, j: nat) {
    i <= j < |es| && es[j].key == es[i].key && es[j].now - es[i].now >= es[j].forSeconds * SECOND
  }

  ghost predicate Tracks(es: seq<Eval>, s: State, key: Key) {
    var start := RunStart(es, key);
    && (key in s.breaching <==> start.Some?)
    && (start.Some? ==> start.value < |es| && s.breaching[key] == es[start.value].now)
    && (key in s.firing <==> start.Some? && exists j: nat :: LongEnough(es, start.value, j))
  }

  lemma LongEnoughExtends(es: seq<Eval>, i: nat, e: Eval, j: nat)
    requires i < |es|
    ensures j < |es| ==> (LongEnough(es + [e], i, j) <==> LongEnough(es, i, j))
  {
  }

  lemma TracksOther(es: seq<Eval>, s: State, e: Eval, key: Key)
    requires Tracks(es, s, key) && key != e.key
    ensures Tracks(es + [e], One(s, e), key)
  {
    var all, start := es + [e], RunStart(es, key);
    assert all[..|es|] == es;
    assert RunStart(all, key) == start;
    if start.Some? {
      RunStartIs(es, key);
      var i := start.value;
      forall j: nat ensures LongEnough(all, i, j) <==> LongEnough(es, i, j) {
        LongEnoughExtends(es, i, e, j);
      }
    }
  }

  lemma TracksOwn(es: seq<Eval>, s: State, e: Eval)
    requires Tracks(es, s, e.key)
    ensures Tracks(es + [e], One(s, e), e.key)
  {
    var all, key := es + [e], e.key;
    var before, start := RunStart(es, key), RunStart(all, key);
    assert all[..|es|] == es && all[|es|] == e;
    if e.breaching {
      RunStartIs(es, key);
      RunStartIs(all, key);
      var i := start.value;
      assert LongEnough(all, i, |es|) <==> e.now - all[i].now >= e.forSeconds * SECOND;
      if before.Some? {
        forall j: nat | j < |es| ensures LongEnough(all, i, j) <==> LongEnough(es, i, j) {
          LongEnoughExtends(es, i, e, j);
        }
      }
    }
  }

  /** The evaluator's maps are exactly the breaching runs and those that have lasted long enough: a pair
      is firing if and only if some evaluation of its present unbroken run came forSeconds after its start. */
  lemma {:induction false} StateIsRuns(es: seq<Eval>, key: Key)
    ensures Tracks(es, All(START, es), key)
    decreases |es|
  {
    if es != [] {
      var n := |es| - 1;
      StateIsRuns(es[..n], key);
      assert es == es[..n] + [es[n]];
      if es[n].key == key {
        TracksOwn(es[..n], All(START, es[..n]), es[n]);
      } else {
        TracksOther(es[..n], All(START, es[..n]), es[n], key);
      }
    }
  }

  /** A firing pair is always breaching too. */
  lemma FiringIsBreaching(es: seq<Eval>, key: Key)
    ensures key in All(START, es).firing ==> key in All(START, es).breaching
  {
    StateIsRuns(es, key);
  }

  /** An evaluation fires exactly when it ends an unbroken run of breaching evaluations that has lasted
      forSeconds, and no earlier one of that run had. */
  lemma FiresIff(es: seq<Eval>, e: Eval)
    ensures var s := All(START, es);
            var all := es + [e];
            var start := RunStart(all, e.key);
            && (start.Some? ==> UnbrokenFrom(all, e.key, start.value))
            && (One(s, e).events == s.events + [Firing(e.key)]
                <==> start.Some? && LongEnough(all, start.value, |es|) && !exists j: nat :: j < |es| && LongEnough(all, start.value, j))
  {
    var s, all := All(START, es), es + [e];
    var before, start := RunStart(es, e.key), RunStart(all, e.key);
    assert all[..|es|] == es && all[|es|] == e;
    assert (s.events + [Firing(e.key)])[|s.events|] != (s.events + [Resolved(e.key)])[|s.events|];
    RunStartIs(all, e.key);
    StateIsRuns(es, e.key);
    if start.Some? && before.Some? {
      forall j: nat | j < |es| ensures LongEnough(all, start.value, j) <==> LongEnough(es, start.value, j) {
        LongEnoughExtends(es, start.value, e, j);
      }
    }
  }

  /** The events of one pair, in order. */
  function EventsOf(events: seq<Event>, key: Key): seq<Event>
    decreases |events|
  {
    if events == [] then []
    else
      var n := |events| - 1;
      EventsOf(events[..n], key) + if events[n].key == key then [events[n]] else []
  }

  predicate Alternates(events: seq<Event>) {
    forall i :: 0 <= i < |events| ==> (events[i].Firing? <==> i % 2 == 0)
  }

  lemma EventsOfMore(events: seq<Event>, x: Event, key: Key)
    ensures EventsOf(events + [x], key) == EventsOf(events, key) + if x.key == key then [x] else []
  {
    assert (events + [x])[..|events|] == events;
  }

  ghost predicate AlternatesTo(s: State, key: Key) {
    var own := EventsOf(s.events, key);
    Alternates(own) && (key in s.firing <==> |own| % 2 == 1)
  }

  lemma AlternatesOn(s: State, e: Eval, key: Key)
    requires AlternatesTo(s, key)
    ensures AlternatesTo(One(s, e), key)
  {
    var s' := One(s, e);
    if s'.events != s.events {
      var x := s'.events[|s.events|];
      assert s'.events == s.events + [x];
      EventsOfMore(s.events, x, key);
    }
  }

  /** Each pair's events strictly alternate, firing first; it is firing now if the last was a firing. */
  lemma {:induction false} EventsAlternate(es: seq<Eval>, key: Key)
    ensures var s := All(START, es);
            var own := EventsOf(s.events, key);
            Alternates(own) && (key in s.firing <==> |own| % 2 == 1)
    decreases |es|
  {
    if es != [] {
      var n := |es| - 1;
      EventsAlternate(es[..n], key);
      AlternatesOn(All(START, es[..n]), es[n], key);
    }
  }
}
