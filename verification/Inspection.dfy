/**
 The inspection pipeline (waf-engine/src/engine.rs, with the list checks of
 waf-engine/src/checker.rs): four list phases, then an ordered run over
 stateful detectors that stops at the first detection.

 Detectors are arbitrary: a detector is its state and a function from state
 and request to a new state and an optional detection.
 */
module Inspection {
  import opened Basics
  import opened LiveSwap
  import opened RuleSets
  import opened RuleReload

  datatype Phase = IpWhitelist | IpBlacklist | UrlWhitelist | UrlBlacklist | Other(code: nat)

  datatype Detection = Detection(ruleId: Option<string>, ruleName: string, phase: Phase, detail: string)

  datatype Action = Allow | Block(status: nat, body: Option<string>) | LogOnly | Redirect(url: string)

  datatype Decision = Decision(action: Action, result: Option<Detection>) {
    predicate IsAllowed() {
      action.Allow? || action.LogOnly?
    }
  }

  const ALLOW := Decision(Allow, None)

  /** The detector phases; `Checker(i)` are the configured attack checkers. */
  datatype Stage =
    | Ddos | CrowdSec | Community | Geo | Checker(index: nat)
    | Sqli | AppSec | CustomRules | Owasp | Sensitive | Hotlink

  /** Which optional parts of the engine are present. */
  datatype Config = Config(
    crowdsec: bool, community: bool, appsec: bool, checkers: nat, reporter: bool, auditSender: bool)

  /** The order of the code. */
  function Stages(cfg: Config): seq<Stage> {
    EarlyStages(cfg) + Checkers(cfg) + LateStages(cfg)
  }

  function EarlyStages(cfg: Config): seq<Stage> {
    [Ddos] + (if cfg.crowdsec then [CrowdSec] else []) + (if cfg.community then [Community] else []) + [Geo]
  }

  function Checkers(cfg: Config): seq<Stage> {
    seq(cfg.checkers, i requires i >= 0 => Checker(i))
  }

  function LateStages(cfg: Config): seq<Stage> {
    [Sqli] + (if cfg.appsec then [AppSec] else []) + [CustomRules, Owasp, Sensitive, Hotlink]
  }

  datatype Request = Request(host: Key, ip: IpAddr, path: string, guarded: bool)

  datatype Lists = Lists(
    allowIps: Buckets<IpNet>, blockIps: Buckets<IpNet>, allowUrls: Buckets<UrlRule>, blockUrls: Buckets<UrlRule>)

  /** What the engine emits, with the decision it is about. */
  datatype Effect =
    | AttackLog(about: Decision)        // row in attack_logs
    | SecurityEvent(about: Decision)    // row in security_events
    | CommunitySignal(about: Decision)
    | AuditEvent(about: Decision)

  predicate IsRecord(e: Effect) {
    e.AttackLog? || e.SecurityEvent?
  }

  function Signal(cfg: Config, d: Decision): seq<Effect> {
    if cfg.reporter then [CommunitySignal(d)] else []
  }

  function Audit(cfg: Config, d: Decision): seq<Effect> {
    if cfg.auditSender then [AuditEvent(d)] else []
  }

  function ListEffects(cfg: Config, d: Decision): seq<Effect> {
    [AttackLog(d)] + Signal(cfg, d) + Audit(cfg, d)
  }

  /** DDoS bans are not audited; community hits are neither reported nor audited. */
  function StageEffects(cfg: Config, stage: Stage, d: Decision): seq<Effect> {
    [SecurityEvent(d)]
    + (if stage == Community then [] else Signal(cfg, d))
    + (if stage == Community || stage == Ddos then [] else Audit(cfg, d))
  }

  type Detector<!S> = (Stage, S, Request) -> (S, Option<Detection>)

  type Render = (Request, string) -> string

  function Verdict(logOnly: bool, render: Render, req: Request, r: Detection): Decision {
    if logOnly then Decision(LogOnly, Some(r))
    else Decision(Block(403, Some(render(req, r.ruleName))), Some(r))
  }

  datatype Outcome<S> = Outcome(decision: Decision, states: map<Stage, S>, effects: seq<Effect>)

  // ---------------------------------------------------------------------------
  // The pipeline
  // ---------------------------------------------------------------------------

  predicate Covers<S>(states: map<Stage, S>, stages: seq<Stage>) {
    forall k :: 0 <= k < |stages| ==> stages[k] in states
  }

  function RunStages<S>(cfg: Config, check: Detector<S>, render: Render, logOnly: bool, req: Request,
                        stages: seq<Stage>, states: map<Stage, S>): Outcome<S>
    requires Covers(states, stages)
    decreases |stages|
  {
    if stages == [] then Outcome(ALLOW, states, [])
    else
      var (s, r) := check(stages[0], states[stages[0]], req);
      var states' := states[stages[0] := s];
      if r.Some? then
        var d := Verdict(logOnly, render, req, r.value);
        Outcome(d, states', StageEffects(cfg, stages[0], d))
      else RunStages(cfg, check, render, logOnly, req, stages[1..], states')
  }

  function Denied(ruleId: Option<string>, name: string, phase: Phase, detail: string): Decision {
    Decision(Block(403, Some("Access denied.")), Some(Detection(ruleId, name, phase, detail)))
  }

  /** Phases 1 to 4; `None` when no list has a say. */
  function ListDecision(lists: Lists, req: Request): Option<Decision> {
    if IpMatches(lists.allowIps, req.host, req.ip) then
      Some(Decision(Allow, Some(Detection(None, "IP Whitelist", IpWhitelist, ""))))
    else if IpMatches(lists.blockIps, req.host, req.ip) then
      Some(Denied(None, "IP Blacklist", IpBlacklist, ""))
    else
      var white := UrlMatch(lists.allowUrls, req.host, req.path);
      if white.Some? then Some(Decision(Allow, Some(Detection(white, "URL Whitelist", UrlWhitelist, ""))))
      else
        var black := UrlMatch(lists.blockUrls, req.host, req.path);
        if black.Some? then Some(Denied(black, "URL Blacklist", UrlBlacklist, "")) else None
  }

  function Inspect<S>(cfg: Config, lists: Lists, check: Detector<S>, render: Render, logOnly: bool, req: Request,
                      states: map<Stage, S>): Outcome<S>
    requires Covers(states, Stages(cfg))
  {
    if !req.guarded then Outcome(ALLOW, states, [])
    else
      var l := ListDecision(lists, req);
      if l.Some? then Outcome(l.value, states, if l.value.IsAllowed() then [] else ListEffects(cfg, l.value))
      else RunStages(cfg, check, render, logOnly, req, Stages(cfg), states)
  }

  class WafEngine<!S> {
    const cfg: Config
    const check: Detector<S>
    const render: Render
    var lists: Lists
    var states: map<Stage, S>
    var effects: seq<Effect>

    constructor (cfg: Config, check: Detector<S>, render: Render, lists: Lists, states: map<Stage, S>)
      ensures this.cfg == cfg && this.check == check && this.render == render
      ensures this.lists == lists && this.states == states && effects == []
    {
      this.cfg, this.check, this.render := cfg, check, render;
      this.lists, this.states, effects := lists, states, [];
    }

    method InspectRequest(req: Request, logOnly: bool) returns (d: Decision)
      requires Covers(states, Stages(cfg))
      modifies this`states, this`effects
      ensures var o := Inspect(cfg, lists, check, render, logOnly, req, old(states));
        d == o.decision && states == o.states && effects == old(effects) + o.effects
    {
      if !req.guarded {
        return ALLOW;
      }
      if IpMatches(lists.allowIps, req.host, req.ip) {
        return Decision(Allow, Some(Detection(None, "IP Whitelist", IpWhitelist, "")));
      }
      if IpMatches(lists.blockIps, req.host, req.ip) {
        d := Denied(None, "IP Blacklist", IpBlacklist, "");
        effects := effects + ListEffects(cfg, d);
        return;
      }
      var white := UrlMatch(lists.allowUrls, req.host, req.path);
      if white.Some? {
        return Decision(Allow, Some(Detection(white, "URL Whitelist", UrlWhitelist, "")));
      }
      var black := UrlMatch(lists.blockUrls, req.host, req.path);
      if black.Some? {
        d := Denied(black, "URL Blacklist", UrlBlacklist, "");
        effects := effects + ListEffects(cfg, d);
        return;
      }
      d := RunDetectors(req, logOnly);
    }

    method RunDetectors(req: Request, logOnly: bool) returns (d: Decision)
      requires Covers(states, Stages(cfg))
      modifies this`states, this`effects
      ensures var o := RunStages(cfg, check, render, logOnly, req, Stages(cfg), old(states));
        d == o.decision && states == o.states && effects == old(effects) + o.effects
    {
      var stages := Stages(cfg);
      for k := 0 to |stages|
        invariant Covers(states, stages) && effects == old(effects)
        invariant RunStages(cfg, check, render, logOnly, req, stages[k..], states)
               == RunStages(cfg, check, render, logOnly, req, stages, old(states))
      {
        assert stages[k..][1..] == stages[k + 1..];
        var (s, r) := check(stages[k], states[stages[k]], req);
        states := states[stages[k] := s];
        if r.Some? {
          d := Verdict(logOnly, render, req, r.value);
          effects := effects + StageEffects(cfg, stages[k], d);
          return;
        }
      }
      return ALLOW;
    }
  }

  // ---------------------------------------------------------------------------
  // What the lists decide, in terms of the stored rows
  // ---------------------------------------------------------------------------

  ghost predicate IpListed(parse: Parser, rows: seq<Row<string>>, req: Request) {
    RowContains(parse, rows, req.host, req.ip) || RowContains(parse, rows, GLOBAL, req.ip)
  }

  ghost predicate UrlListed(rows: seq<Row<UrlRule>>, req: Request) {
    !NoRow(rows, req.host, req.path) || !NoRow(rows, GLOBAL, req.path)
  }

  /**
   After a reload the rows decide: an address row of the whitelist wins over all,
   one of the blacklist over the URL lists, a whitelisted URL over a blacklisted
   one; and without any row for the host or "*" the lists have no say.
   */
  lemma RowsDecide(lists: Lists, parse: Parser, allowIps: seq<Row<string>>, blockIps: seq<Row<string>>,
                   allowUrls: seq<Row<UrlRule>>, blockUrls: seq<Row<UrlRule>>, req: Request)
    requires LoadedIps(lists.allowIps, parse, allowIps) && LoadedIps(lists.blockIps, parse, blockIps)
    requires LoadedUrls(lists.allowUrls, allowUrls) && LoadedUrls(lists.blockUrls, blockUrls)
    ensures var l := ListDecision(lists, req);
      if IpListed(parse, allowIps, req) then SaysBy(l, true, IpWhitelist, None)
      else if IpListed(parse, blockIps, req) then SaysBy(l, false, IpBlacklist, None)
      else if UrlListed(allowUrls, req) then
        SaysBy(l, true, UrlWhitelist, UrlMatch(lists.allowUrls, req.host, req.path))
      else if UrlListed(blockUrls, req) then
        SaysBy(l, false, UrlBlacklist, UrlMatch(lists.blockUrls, req.host, req.path))
      else l.None?
  {
    ReloadedIps(lists.allowIps, parse, allowIps, req.host, req.ip);
    ReloadedIps(lists.blockIps, parse, blockIps, req.host, req.ip);
    ReloadedUrls(lists.allowUrls, allowUrls, req.host, req.path);
    ReloadedUrls(lists.blockUrls, blockUrls, req.host, req.path);
  }

  /** The lists allow or deny, for the reason `phase`. */
  predicate Says(l: Option<Decision>, allow: bool, phase: Phase) {
    && l.Some? && l.value.result.Some? && l.value.result.value.phase == phase
    && l.value.action == if allow then Allow else Block(403, Some("Access denied."))
  }

  predicate SaysBy(l: Option<Decision>, allow: bool, phase: Phase, id: Option<string>) {
    Says(l, allow, phase) && l.value.result.value.ruleId == id
  }

  // ---------------------------------------------------------------------------
  // What the pipeline computes
  // ---------------------------------------------------------------------------

  /** Which detectors are there. */
  predicate Present(cfg: Config, stage: Stage) {
    match stage
    case CrowdSec => cfg.crowdsec
    case Community => cfg.community
    case AppSec => cfg.appsec
    case Checker(i) => i < cfg.checkers
    case _ => true
  }

  /** Their order: bans and reputation, geography, the attack checkers, SQL injection,
      AppSec, and then rules from custom ones to hotlinking. */
  function Rank(stage: Stage): nat {
    match stage
    case Ddos => 19
    case CrowdSec => 20
    case Community => 21
    case Geo => 22
    case Checker(_) => 23
    case Sqli => 24
    case AppSec => 25
    case CustomRules => 26
    case Owasp => 27
    case Sensitive => 28
    case Hotlink => 29
  }

  predicate Before(a: Stage, b: Stage) {
    Rank(a) < Rank(b) || (a.Checker? && b.Checker? && a.index < b.index)
  }

  ghost predicate Ascending(stages: seq<Stage>) {
    forall i, j :: 0 <= i < j < |stages| ==> Before(stages[i], stages[j])
  }

  lemma AscendingAppend(a: seq<Stage>, b: seq<Stage>)
    requires Ascending(a) && Ascending(b) && forall i, j :: 0 <= i < |a| && 0 <= j < |b| ==> Before(a[i], b[j])
    ensures Ascending(a + b)
  {
  }

  lemma EarlyStagesAre(cfg: Config, s: Stage)
    ensures Ascending(EarlyStages(cfg))
    ensures s in EarlyStages(cfg) <==> Present(cfg, s) && Rank(s) < 23
  {
  }

  lemma LateStagesAre(cfg: Config, s: Stage)
    ensures Ascending(LateStages(cfg))
    ensures s in LateStages(cfg) <==> Present(cfg, s) && Rank(s) > 23
  {
  }

  lemma CheckersAre(cfg: Config, s: Stage)
    ensures Ascending(Checkers(cfg))
    ensures s in Checkers(cfg) <==> s.Checker? && s.index < cfg.checkers
  {
    if s.Checker? && s.index < cfg.checkers {
      assert Checkers(cfg)[s.index] == s;
    }
  }

  /** Every detector that is there runs, once, in this order. */
  lemma StagesInOrder(cfg: Config)
    ensures Ascending(Stages(cfg)) && NoDup(Stages(cfg))
    ensures forall s: Stage :: s in Stages(cfg) <==> Present(cfg, s)
  {
    var a, b, c := EarlyStages(cfg), Checkers(cfg), LateStages(cfg);
    forall s: Stage
      ensures s in a <==> Present(cfg, s) && Rank(s) < 23
      ensures s in b <==> s.Checker? && s.index < cfg.checkers
      ensures s in c <==> Present(cfg, s) && Rank(s) > 23
    {
      EarlyStagesAre(cfg, s);
      CheckersAre(cfg, s);
      LateStagesAre(cfg, s);
    }
    EarlyStagesAre(cfg, Ddos);
    CheckersAre(cfg, Ddos);
    LateStagesAre(cfg, Ddos);
    assert forall i :: 0 <= i < |a| ==> a[i] in a;
    assert forall i :: 0 <= i < |b| ==> b[i] in b;
    assert forall i :: 0 <= i < |c| ==> c[i] in c;
    AscendingAppend(a, b);
    assert forall i :: 0 <= i < |a + b| ==> (a + b)[i] in a || (a + b)[i] in b;
    AscendingAppend(a + b, c);
  }

  /** What a detection emits: a security event; a community signal, if there is a
      reporter, except for community hits; an audit event, if there is a sender, except
      for those and for DDoS bans. */
  predicate StageEmits(cfg: Config, stage: Stage, d: Decision, es: seq<Effect>) {
    var signal := cfg.reporter && stage != Community;
    var audit := cfg.auditSender && stage != Community && stage != Ddos;
    && |es| == 1 + (if signal then 1 else 0) + (if audit then 1 else 0)
    && es[0] == SecurityEvent(d)
    && (signal ==> es[1] == CommunitySignal(d))
    && (audit ==> es[|es| - 1] == AuditEvent(d))
  }

  /** What a blacklist hit emits: an attack log, and both of the others if they exist. */
  predicate ListEmits(cfg: Config, d: Decision, es: seq<Effect>) {
    && |es| == 1 + (if cfg.reporter then 1 else 0) + (if cfg.auditSender then 1 else 0)
    && es[0] == AttackLog(d)
    && (cfg.reporter ==> es[1] == CommunitySignal(d))
    && (cfg.auditSender ==> es[|es| - 1] == AuditEvent(d))
  }

  /** How a detection `r` is acted on: blocked with status 403 and the block page, or
      let through and logged. */
  predicate ActsOn(logOnly: bool, render: Render, req: Request, r: Detection, d: Decision) {
    && d.result == Some(r)
    && d.action == (if logOnly then LogOnly else Block(403, Some(render(req, r.ruleName))))
    && (d.IsAllowed() <==> logOnly)
  }

  /** Detector `k`, on the state it had before the request, detects something. */
  predicate Fires<S>(check: Detector<S>, req: Request, stages: seq<Stage>, states: map<Stage, S>, k: nat)
    requires Covers(states, stages) && k < |stages|
  {
    check(stages[k], states[stages[k]], req).1.Some?
  }

  /**
   The run stops at the first stage that fires on its own initial state: that
   stage's detection is the result, the stages up to it have advanced by
   exactly one check, and every later stage is untouched.
   */
  lemma {:induction false} StopsAtFirst<S>(cfg: Config, check: Detector<S>, render: Render, logOnly: bool, req: Request,
                                           stages: seq<Stage>, states: map<Stage, S>, k: nat)
    requires NoDup(stages) && Covers(states, stages) && k < |stages|
    requires Fires(check, req, stages, states, k)
    requires forall j :: 0 <= j < k ==> !Fires(check, req, stages, states, j)
    ensures var o := RunStages(cfg, check, render, logOnly, req, stages, states);
      && ActsOn(logOnly, render, req, check(stages[k], states[stages[k]], req).1.value, o.decision)
      && StageEmits(cfg, stages[k], o.decision, o.effects)
      && o.states.Keys == states.Keys
      && (forall j :: 0 <= j <= k ==> o.states[stages[j]] == check(stages[j], states[stages[j]], req).0)
      && (forall s <- states :: s !in stages[..k + 1] ==> o.states[s] == states[s])
    decreases |stages|
  {
    if k > 0 {
      var states' := states[stages[0] := check(stages[0], states[stages[0]], req).0];
      var rest := stages[1..];
      assert !Fires(check, req, stages, states, 0);
      assert forall j :: 0 <= j < |rest| ==> rest[j] == stages[j + 1] && states'[rest[j]] == states[rest[j]];
      assert forall j :: 0 <= j < k - 1 ==>
        Fires(check, req, rest, states', j) == Fires(check, req, stages, states, j + 1);
      StopsAtFirst(cfg, check, render, logOnly, req, rest, states', k - 1);
      var o := RunStages(cfg, check, render, logOnly, req, stages, states);
      forall j | 0 <= j <= k ensures o.states[stages[j]] == check(stages[j], states[stages[j]], req).0 {
        if j == 0 {
          assert stages[0] !in rest[..k];
        } else {
          assert stages[j] == rest[j - 1];
        }
      }
      forall s | s in states && s !in stages[..k + 1] ensures o.states[s] == states[s] {
        assert s != stages[0] by { assert stages[0] in stages[..k + 1]; }
        assert forall j :: 0 <= j < k ==> rest[..k][j] == stages[..k + 1][j + 1];
      }
    } else {
      assert forall s <- states :: s !in stages[..1] ==> s != stages[0];
    }
  }

  /** When no stage fires the request is allowed, silently, and every stage has
      advanced by exactly one check. */
  lemma {:induction false} PassesWhenQuiet<S>(cfg: Config, check: Detector<S>, render: Render, logOnly: bool,
                                              req: Request, stages: seq<Stage>, states: map<Stage, S>)
    requires NoDup(stages) && Covers(states, stages)
    requires forall j :: 0 <= j < |stages| ==> !Fires(check, req, stages, states, j)
    ensures var o := RunStages(cfg, check, render, logOnly, req, stages, states);
      && o.decision == Decision(Allow, None) && o.decision.IsAllowed() && o.effects == []
      && o.states.Keys == states.Keys
      && (forall j :: 0 <= j < |stages| ==> o.states[stages[j]] == check(stages[j], states[stages[j]], req).0)
      && (forall s <- states :: s !in stages ==> o.states[s] == states[s])
    decreases |stages|
  {
    if stages != [] {
      var states' := states[stages[0] := check(stages[0], states[stages[0]], req).0];
      var rest := stages[1..];
      assert !Fires(check, req, stages, states, 0);
      assert forall j :: 0 <= j < |rest| ==> rest[j] == stages[j + 1] && states'[rest[j]] == states[rest[j]];
      assert forall j :: 0 <= j < |rest| ==>
        Fires(check, req, rest, states', j) == Fires(check, req, stages, states, j + 1);
      PassesWhenQuiet(cfg, check, render, logOnly, req, rest, states');
      var o := RunStages(cfg, check, render, logOnly, req, stages, states);
      forall j | 0 <= j < |stages| ensures o.states[stages[j]] == check(stages[j], states[stages[j]], req).0 {
        if j == 0 {
          assert stages[0] !in rest;
        } else {
          assert stages[j] == rest[j - 1];
        }
      }
    }
  }

  /** The same for a whole inspection: guarded requests no list decides are
      decided by the first detector, in code order, that fires. */
  lemma FirstDetectorDecides<S>(cfg: Config, lists: Lists, check: Detector<S>, render: Render, logOnly: bool,
                                req: Request, states: map<Stage, S>, k: nat)
    requires Covers(states, Stages(cfg)) && req.guarded && ListDecision(lists, req).None?
    requires k < |Stages(cfg)| && Fires(check, req, Stages(cfg), states, k)
    requires forall j :: 0 <= j < k ==> !Fires(check, req, Stages(cfg), states, j)
    ensures var o := Inspect(cfg, lists, check, render, logOnly, req, states); var stages := Stages(cfg);
      && ActsOn(logOnly, render, req, check(stages[k], states[stages[k]], req).1.value, o.decision)
      && StageEmits(cfg, stages[k], o.decision, o.effects)
      && o.states.Keys == states.Keys
      && (forall j :: 0 <= j <= k ==> o.states[stages[j]] == check(stages[j], states[stages[j]], req).0)
      && (forall j :: k < j < |stages| ==> o.states[stages[j]] == states[stages[j]])
  {
    StagesInOrder(cfg);
    StopsAtFirst(cfg, check, render, logOnly, req, Stages(cfg), states, k);
    forall j | k < j < |Stages(cfg)| ensures Stages(cfg)[j] !in Stages(cfg)[..k + 1] {
    }
  }

  /** And before the detectors: without the guard everything passes untouched, and what
      the lists decide stands, with no detector run; a blacklist hit is logged. */
  lemma ListsDecideFirst<S>(cfg: Config, lists: Lists, check: Detector<S>, render: Render, logOnly: bool,
                            req: Request, states: map<Stage, S>)
    requires Covers(states, Stages(cfg)) && (!req.guarded || ListDecision(lists, req).Some?)
    ensures var o := Inspect(cfg, lists, check, render, logOnly, req, states);
      && o.states == states
      && (!req.guarded ==> o.decision == Decision(Allow, None) && o.effects == [])
      && (req.guarded ==>
            && o.decision == ListDecision(lists, req).value
            && (o.decision.action == Allow ==> o.effects == [])
            && (o.decision.action != Allow ==> ListEmits(cfg, o.decision, o.effects)))
  {
  }

  // ---------------------------------------------------------------------------
  // Log-only mode and storage records
  // ---------------------------------------------------------------------------

  /** The same decision with a detector's block turned into a log entry. */
  function Soften(d: Decision): Decision {
    if d.action.Block? then d.(action := LogOnly) else d
  }

  function SoftenEffect(e: Effect): Effect {
    match e
    case AttackLog(d) => AttackLog(Soften(d))
    case SecurityEvent(d) => SecurityEvent(Soften(d))
    case CommunitySignal(d) => CommunitySignal(Soften(d))
    case AuditEvent(d) => AuditEvent(Soften(d))
  }

  function SoftenAll(es: seq<Effect>): seq<Effect> {
    seq(|es|, i requires 0 <= i < |es| => SoftenEffect(es[i]))
  }

  lemma SoftenedEffects(cfg: Config, stage: Stage, d: Decision)
    ensures SoftenAll(StageEffects(cfg, stage, d)) == StageEffects(cfg, stage, Soften(d))
  {
  }

  lemma {:induction false} LogOnlyStages<S>(cfg: Config, check: Detector<S>, render: Render, req: Request,
                                            stages: seq<Stage>, states: map<Stage, S>)
    requires Covers(states, stages)
    ensures var hard := RunStages(cfg, check, render, false, req, stages, states);
      RunStages(cfg, check, render, true, req, stages, states)
      == Outcome(Soften(hard.decision), hard.states, SoftenAll(hard.effects))
    decreases |stages|
  {
    if stages != [] {
      var (s, r) := check(stages[0], states[stages[0]], req);
      var states' := states[stages[0] := s];
      if r.Some? {
        SoftenedEffects(cfg, stages[0], Verdict(false, render, req, r.value));
      } else {
        LogOnlyStages(cfg, check, render, req, stages[1..], states');
      }
    }
  }

  /**
   From equal detector states, log-only mode leaves the same detector states
   and finds the same thing; list decisions are identical, and a detector's
   block becomes a log entry in the decision and in every effect.
   */
  lemma LogOnlySimulates<S>(cfg: Config, lists: Lists, check: Detector<S>, render: Render, req: Request,
                            states: map<Stage, S>)
    requires Covers(states, Stages(cfg))
    ensures var hard := Inspect(cfg, lists, check, render, false, req, states);
      var soft := Inspect(cfg, lists, check, render, true, req, states);
      && soft.states == hard.states && soft.decision.result == hard.decision.result
      && (if req.guarded && ListDecision(lists, req).Some? then soft == hard
          else soft.decision == Soften(hard.decision) && soft.effects == SoftenAll(hard.effects))
  {
    LogOnlyStages(cfg, check, render, req, Stages(cfg), states);
  }

  function Records(es: seq<Effect>): nat {
    if es == [] then 0 else (if IsRecord(es[0]) then 1 else 0) + Records(es[1..])
  }

  lemma {:induction false} RecordsAppend(a: seq<Effect>, b: seq<Effect>)
    ensures Records(a + b) == Records(a) + Records(b)
    decreases |a|
  {
    if a == [] {
      assert a + b == b;
    } else {
      RecordsAppend(a[1..], b);
      assert (a + b)[1..] == a[1..] + b;
    }
  }

  lemma StageWritesOneRecord(cfg: Config, stage: Stage, d: Decision)
    ensures Records(StageEffects(cfg, stage, d)) == 1 && Records(ListEffects(cfg, d)) == 1
  {
    var sig := if stage == Community then [] else Signal(cfg, d);
    var aud := if stage == Community || stage == Ddos then [] else Audit(cfg, d);
    RecordsAppend([SecurityEvent(d)] + sig, aud);
    RecordsAppend([SecurityEvent(d)], sig);
    RecordsAppend([AttackLog(d)] + Signal(cfg, d), Audit(cfg, d));
    RecordsAppend([AttackLog(d)], Signal(cfg, d));
  }

  /** A detection with a record: everything but a whitelist hit. */
  predicate Detected(d: Decision) {
    d.result.Some? && d.action != Allow
  }

  lemma {:induction false} StagesWriteOneRecord<S>(cfg: Config, check: Detector<S>, render: Render, logOnly: bool,
                                                   req: Request, stages: seq<Stage>, states: map<Stage, S>)
    requires Covers(states, stages)
    ensures var o := RunStages(cfg, check, render, logOnly, req, stages, states);
      Records(o.effects) == if Detected(o.decision) then 1 else 0
    decreases |stages|
  {
    if stages != [] {
      var (s, r) := check(stages[0], states[stages[0]], req);
      if r.Some? {
        StageWritesOneRecord(cfg, stages[0], Verdict(logOnly, render, req, r.value));
      } else {
        StagesWriteOneRecord(cfg, check, render, logOnly, req, stages[1..], states[stages[0] := s]);
      }
    }
  }

  /** Exactly one storage record is written when a blacklist or a detector
      fired, and none otherwise. */
  lemma OneRecordPerDetection<S>(cfg: Config, lists: Lists, check: Detector<S>, render: Render, logOnly: bool,
                                 req: Request, states: map<Stage, S>)
    requires Covers(states, Stages(cfg))
    ensures var o := Inspect(cfg, lists, check, render, logOnly, req, states);
      Records(o.effects) == if Detected(o.decision) then 1 else 0
  {
    StagesWriteOneRecord(cfg, check, render, logOnly, req, Stages(cfg), states);
    var l := ListDecision(lists, req);
    if l.Some? { StageWritesOneRecord(cfg, Ddos, l.value); }
  }
}
