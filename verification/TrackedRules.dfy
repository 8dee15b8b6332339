/** The rules of a tracked specification, of either kind: how a run configures, advances and flushes them. */
module TrackedRules {
  import opened Contracts
  import opened LineReducer
  import opened RuleReducer
  import opened RuleFlush
  import opened ZoneReducer
  import Disposition
  import Signals = SignalIntervals
  import Zones = ZoneRules

  datatype Rule = Line(line: LineRule) | Zone(zone: ZoneRule) {
    function Id(): string { if Line? then line.ruleId else zone.ruleId }
  }

  datatype State = OfLine(lines: RuleState) | OfZone(zones: Zones.ZoneState)

  datatype Failure = LineFailure(lineError: RuleError) | ZoneFailure(zoneError: ZoneError)

  datatype Candidate = Crossed(crossing: RuleCandidate) | Stayed(stay: ZoneCandidate) {
    function RuleId(): string { if Crossed? then crossing.ruleId else stay.ruleId }
  }

  // ---------------------------------------------------------------- configuration

  datatype TrackedRule = TrackedRule(ruleId: string, capabilityId: string)

  /** Named point lists in the order in which they are stored. */
  type Shapes = seq<(string, seq<Point>)>

  datatype Calibration = Calibration(lines: Shapes, lanes: Shapes)

  datatype ConfigError = NoCalibration | NoUsableLine | NoUsableZone | UnsupportedCapability

  const LINE_CROSSING := "tracked.line_crossing"
  const RED_PHASE_CROSSING := "tracked.red_phase_crossing"
  const PERSON_IN_ZONE := "tracked.person_in_zone"

  /** The shape stored under the id; empty when there is none. */
  function Own(shapes: Shapes, id: string): seq<Point> {
    if |shapes| == 0 then [] else if shapes[0].0 == id then shapes[0].1 else Own(shapes[1..], id)
  }

  predicate UsableLine(points: seq<Point>) { |points| == 2 }

  predicate UsableZone(points: seq<Point>) { |points| >= 3 }

  /** The rule's own shape if it can be used, else the first one that can. */
  ghost predicate Chosen(shapes: Shapes, id: string, usable: seq<Point> -> bool, points: seq<Point>) {
    usable(points) &&
    if usable(Own(shapes, id)) then points == Own(shapes, id)
    else exists i :: 0 <= i < |shapes| && points == shapes[i].1 && forall j :: 0 <= j < i ==> !usable(shapes[j].1)
  }

  ghost predicate NoneUsable(shapes: Shapes, usable: seq<Point> -> bool) {
    forall i :: 0 <= i < |shapes| ==> !usable(shapes[i].1)
  }

  lemma {:induction false} OwnIsStored(shapes: Shapes, id: string)
    ensures Own(shapes, id) == [] || exists i :: 0 <= i < |shapes| && shapes[i] == (id, Own(shapes, id))
  {
    if |shapes| > 0 && shapes[0].0 != id {
      OwnIsStored(shapes[1..], id);
      if Own(shapes[1..], id) != [] {
        var i :| 0 <= i < |shapes[1..]| && shapes[1..][i] == (id, Own(shapes[1..], id));
        assert shapes[i + 1] == (id, Own(shapes, id));
      }
    }
  }

  method Choose(shapes: Shapes, id: string, usable: seq<Point> -> bool) returns (points: Option<seq<Point>>)
    requires !usable([])
    ensures points.Some? ==> Chosen(shapes, id, usable, points.value)
    ensures points.None? <==> NoneUsable(shapes, usable)
  {
    OwnIsStored(shapes, id);
    if usable(Own(shapes, id)) {
      return Some(Own(shapes, id));
    }
    for i := 0 to |shapes|
      invariant forall j :: 0 <= j < i ==> !usable(shapes[j].1)
    {
      if usable(shapes[i].1) {
        return Some(shapes[i].1);
      }
    }
    points := None;
  }

  /** What the configuration of a rule must be: its shape and the fixed parameters of its kind. */
  ghost predicate Configured(rule: TrackedRule, calibration: Calibration, config: Rule) {
    if rule.capabilityId == PERSON_IN_ZONE then
      && config.Zone? && Chosen(calibration.lanes, rule.ruleId, UsableZone, config.zone.polygon)
      && config.zone == ZoneRule(rule.ruleId, config.zone.polygon, 500, 0)
    else
      && config.Line? && (rule.capabilityId == LINE_CROSSING || rule.capabilityId == RED_PHASE_CROSSING)
      && Chosen(calibration.lines, rule.ruleId, UsableLine, [config.line.lineStart, config.line.lineEnd])
      && config.line == LineRule(rule.ruleId,
                                 if rule.capabilityId == RED_PHASE_CROSSING then RedPhaseCrossing else LineCrossing,
                                 config.line.lineStart, config.line.lineEnd, BottomLeft, 0.01, 500, 1, -1, 100)
  }

  /** A rule can be configured: its capability is known and some shape of its kind can be used. */
  ghost predicate Configurable(rule: TrackedRule, calibration: Calibration) {
    if rule.capabilityId == PERSON_IN_ZONE then !NoneUsable(calibration.lanes, UsableZone)
    else (rule.capabilityId == LINE_CROSSING || rule.capabilityId == RED_PHASE_CROSSING)
         && !NoneUsable(calibration.lines, UsableLine)
  }

  method RuleConfig(rule: TrackedRule, calibration: Calibration) returns (r: Result<Rule, ConfigError>)
    ensures r.Ok? <==> Configurable(rule, calibration)
    ensures r.Ok? ==> Configured(rule, calibration, r.value)
  {
    if rule.capabilityId == LINE_CROSSING || rule.capabilityId == RED_PHASE_CROSSING {
      var line := Choose(calibration.lines, rule.ruleId, UsableLine);
      if line.None? {
        return Err(NoUsableLine);
      }
      assert line.value == [line.value[0], line.value[1]];
      var capability := if rule.capabilityId == RED_PHASE_CROSSING then RedPhaseCrossing else LineCrossing;
      return Ok(Line(LineRule(rule.ruleId, capability, line.value[0], line.value[1], BottomLeft, 0.01, 500, 1, -1, 100)));
    }
    if rule.capabilityId == PERSON_IN_ZONE {
      var polygon := Choose(calibration.lanes, rule.ruleId, UsableZone);
      if polygon.None? {
        return Err(NoUsableZone);
      }
      return Ok(Zone(ZoneRule(rule.ruleId, polygon.value, 500, 0)));
    }
    r := Err(UnsupportedCapability);
  }

  /** Every configured rule keeps its id; a line rule is directed and its margin is not negative, and a
      zone rule has a real polygon and merges only stays that touch. */
  lemma ConfiguredIsSound(rule: TrackedRule, calibration: Calibration, config: Rule)
    requires Configured(rule, calibration, config)
    ensures config.Id() == rule.ruleId
    ensures config.Line? ==> DirectedRule(config.line) && config.line.marginMs >= 0
    ensures config.Zone? ==> |config.zone.polygon| >= 3 && config.zone.mergeGapMs == 0
  {
  }

  /** Two configurations of one rule are the same. */
  lemma ConfiguredOnce(rule: TrackedRule, calibration: Calibration, a: Rule, b: Rule)
    requires Configured(rule, calibration, a) && Configured(rule, calibration, b)
    ensures a == b
  {
    if rule.capabilityId == PERSON_IN_ZONE {
      ChosenOnce(calibration.lanes, rule.ruleId, UsableZone, a.zone.polygon, b.zone.polygon);
    } else {
      var p, q := [a.line.lineStart, a.line.lineEnd], [b.line.lineStart, b.line.lineEnd];
      ChosenOnce(calibration.lines, rule.ruleId, UsableLine, p, q);
      assert p[0] == q[0] && p[1] == q[1];
    }
  }

  lemma ChosenOnce(shapes: Shapes, id: string, usable: seq<Point> -> bool, a: seq<Point>, b: seq<Point>)
    requires Chosen(shapes, id, usable, a) && Chosen(shapes, id, usable, b)
    ensures a == b
  {
  }

  /** Configures the rules of a specification in order. */
  method Configure(rules: seq<TrackedRule>, calibration: Option<Calibration>) returns (r: Result<seq<Rule>, ConfigError>)
    ensures r.Ok? <==> calibration.Some? && forall q :: 0 <= q < |rules| ==> Configurable(rules[q], calibration.value)
    ensures r.Ok? ==> AllConfigured(rules, calibration.value, r.value)
  {
    if calibration.None? {
      return Err(NoCalibration);
    }
    var configs := [];
    for q := 0 to |rules|
      invariant AllConfigured(rules[..q], calibration.value, configs)
      invariant forall p :: 0 <= p < q ==> Configurable(rules[p], calibration.value)
    {
      var config := RuleConfig(rules[q], calibration.value);
      if config.Err? {
        return Err(config.error);
      }
      configs := configs + [config.value];
    }
    r := Ok(configs);
  }

  ghost predicate AllConfigured(rules: seq<TrackedRule>, calibration: Calibration, configs: seq<Rule>) {
    |configs| == |rules| && forall q :: 0 <= q < |rules| ==> Configured(rules[q], calibration, configs[q])
  }

  // ---------------------------------------------------------------- advancing and flushing one rule

  /** The state belongs to a rule of this kind. */
  ghost predicate Fits(rule: Rule, state: State) {
    if rule.Line? then state.OfLine? && WellOrdered(state.lines) else state.OfZone? && Zones.Sound(state.zones)
  }

  function NewState(rule: Rule): (state: State)
    ensures Fits(rule, state)
  {
    if rule.Line? then OfLine(EMPTY_STATE) else OfZone(Zones.NO_TRACKS)
  }

  function Advance(rule: Rule, state: State, batch: seq<Observation>): (r: Result<State, Failure>)
    requires Fits(rule, state)
    ensures r.Ok? ==> Fits(rule, r.value)
  {
    if rule.Line? then
      OrderIsKept(state.lines, rule.line, SortByTime(batch));
      LineResult(ApplyBatch(state.lines, rule.line, batch))
    else ZoneResult(Zones.ApplyBatch(state.zones, rule.zone, batch))
  }

  function LineResult(r: Result<RuleState, RuleError>): Result<State, Failure> {
    if r.Ok? then Ok(OfLine(r.value)) else Err(LineFailure(r.error))
  }

  function ZoneResult(r: Result<Zones.ZoneState, ZoneError>): Result<State, Failure> {
    if r.Ok? then Ok(OfZone(r.value)) else Err(ZoneFailure(r.error))
  }

  /** The state of a rule after all batches, one frame after the other. */
  function Fed(rule: Rule, batches: seq<seq<Observation>>): (r: Result<State, Failure>)
    ensures r.Ok? ==> Fits(rule, r.value)
  {
    if |batches| == 0 then Ok(NewState(rule))
    else
      var before := Fed(rule, batches[..|batches| - 1]);
      if before.Err? then before else Advance(rule, before.value, batches[|batches| - 1])
  }

  /** Feeding a rule of either kind is feeding the reducer of that kind. */
  lemma {:induction false} FedIsReduced(rule: Rule, batches: seq<seq<Observation>>)
    ensures rule.Line? ==> Fed(rule, batches) == LineResult(ApplyFrames(EMPTY_STATE, rule.line, batches))
    ensures rule.Zone? ==> Fed(rule, batches) == ZoneResult(Zones.ApplyFrames(rule.zone, batches))
  {
    hide ApplyBatch, Zones.ApplyBatch;
    if |batches| > 0 {
      FedIsReduced(rule, batches[..|batches| - 1]);
    }
  }

  method AdvanceRule(rule: Rule, state: State, batch: seq<Observation>) returns (r: Result<State, Failure>)
    requires Fits(rule, state)
    ensures r == Advance(rule, state, batch)
  {
    if rule.Line? {
      var after := ApplyObservations(rule.line, batch, Some(state.lines));
      r := LineResult(after);
    } else {
      var after := Zones.ApplyObservations(rule.zone, batch, state.zones);
      r := ZoneResult(after);
    }
  }

  predicate Emittable(c: Candidate) {
    c.Crossed? ==> c.crossing.verdict == Disposition.Supported || c.crossing.verdict == Disposition.Inconclusive
  }

  /** The crossings that are supported or inconclusive. */
  function EmittedCrossings(cs: seq<RuleCandidate>): (r: seq<Candidate>)
    ensures forall c :: c in r <==> c.Crossed? && c.crossing in cs && Emittable(c)
  {
    if |cs| == 0 then []
    else
      var last := Crossed(cs[|cs| - 1]);
      assert cs == cs[..|cs| - 1] + [last.crossing];
      EmittedCrossings(cs[..|cs| - 1]) + (if Emittable(last) then [last] else [])
  }

  /** Stays are always supported. */
  function EmittedStays(cs: seq<ZoneCandidate>): (r: seq<Candidate>)
    ensures |r| == |cs| && forall i :: 0 <= i < |cs| ==> r[i] == Stayed(cs[i])
  {
    seq(|cs|, i requires 0 <= i < |cs| => Stayed(cs[i]))
  }

  /** What a rule emits at the end of the source; a zone rule may refuse. */
  function Emission(rule: Rule, state: State, reds: seq<Signals.SignalInterval>, endMs: nat): Result<seq<Candidate>, Failure>
    requires Fits(rule, state)
  {
    if rule.Line? then Ok(EmittedCrossings(Candidates(state.lines, rule.line, reds, |state.lines.order|)))
    else
      var stays := Zones.Candidates(state.zones, rule.zone, endMs, |state.zones.order|);
      if stays.Err? then Err(ZoneFailure(stays.error)) else Ok(EmittedStays(stays.value))
  }

  method EmitRule(rule: Rule, state: State, reds: seq<Signals.SignalInterval>, endMs: nat)
    returns (r: Result<seq<Candidate>, Failure>)
    requires Fits(rule, state)
    ensures r == Emission(rule, state, reds, endMs)
  {
    if rule.Line? {
      var candidates := Flush(state.lines, rule.line, reds);
      r := Ok(EmittedCrossings(candidates));
    } else {
      var stays := Zones.Flush(state.zones, rule.zone, endMs);
      r := if stays.Err? then Err(ZoneFailure(stays.error)) else Ok(EmittedStays(stays.value));
    }
  }
}
