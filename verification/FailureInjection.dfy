/** The failure injector: lifecycle rules first, then one failure every n unmatched packets. */
module FailureInjection {
  import opened Packets

  datatype FailureType =
    | NoFailure
    | MalformedPacket
    | InvalidPacket
    | Loss
    | ArtificialDelay
    | ProcessingRejection

  datatype FailureResult = FailureResult(kind: FailureType, isTerminal: bool, delayMs: real)

  datatype FailureRule = FailureRule(lifecycleId: nat, kind: FailureType)

  datatype FailureConfig = FailureConfig(
    kind: FailureType,
    enabled: bool,
    everyNPackets: nat,
    delayMs: real,
    lifecycleRules: seq<FailureRule>)

  const NO_FAILURE := FailureResult(NoFailure, false, 0.0)

  function MakeFailureResult(kind: FailureType, delayMs: real): FailureResult {
    if kind == NoFailure then NO_FAILURE
    else FailureResult(kind, kind != ArtificialDelay, if kind == ArtificialDelay then delayMs else 0.0)
  }

  predicate Matched(cfg: FailureConfig, p: Packet) {
    exists k :: 0 <= k < |cfg.lifecycleRules| && cfg.lifecycleRules[k].lifecycleId == p.lifecycleId
  }

  /** The rule for a lifecycle id that the source's loop returns on. */
  function FirstRule(rules: seq<FailureRule>, lifecycleId: nat): Option<FailureType> {
    if rules == [] then None
    else if rules[0].lifecycleId == lifecycleId then Some(rules[0].kind)
    else FirstRule(rules[1..], lifecycleId)
  }

  lemma {:induction false} FirstRuleIsFirst(rules: seq<FailureRule>, lifecycleId: nat, k: nat)
    requires k <= |rules| && forall j :: 0 <= j < k ==> rules[j].lifecycleId != lifecycleId
    ensures k == |rules| ==> FirstRule(rules, lifecycleId) == None
    ensures k < |rules| && rules[k].lifecycleId == lifecycleId ==> FirstRule(rules, lifecycleId) == Some(rules[k].kind)
  {
    if k == 0 {
    } else {
      FirstRuleIsFirst(rules[1..], lifecycleId, k - 1);
    }
  }

  lemma {:induction false} MatchedHasRule(rules: seq<FailureRule>, p: Packet)
    ensures FirstRule(rules, p.lifecycleId).Some?
            <==> exists k :: 0 <= k < |rules| && rules[k].lifecycleId == p.lifecycleId
  {
    if rules == [] {
    } else {
      MatchedHasRule(rules[1..], p);
      if k :| 0 <= k < |rules| && rules[k].lifecycleId == p.lifecycleId {
        if k > 0 {
          assert rules[1..][k - 1] == rules[k];
        }
      }
    }
  }

  /** Does a packet advance the every-n counter? */
  predicate Counts(cfg: FailureConfig, p: Packet) {
    && cfg.enabled
    && FirstRule(cfg.lifecycleRules, p.lifecycleId).None?
    && cfg.everyNPackets != 0
    && cfg.kind != NoFailure
  }

  function SeenNext(cfg: FailureConfig, seen: nat, p: Packet): nat {
    if Counts(cfg, p) then seen + 1 else seen
  }

  function Verdict(cfg: FailureConfig, seen: nat, p: Packet): FailureResult {
    if !cfg.enabled then NO_FAILURE
    else
      match FirstRule(cfg.lifecycleRules, p.lifecycleId)
      case Some(kind) => MakeFailureResult(kind, cfg.delayMs)
      case None =>
        if cfg.everyNPackets == 0 || cfg.kind == NoFailure then NO_FAILURE
        else if (seen + 1) % cfg.everyNPackets != 0 then NO_FAILURE
        else MakeFailureResult(cfg.kind, cfg.delayMs)
  }

  class FailureInjector {
    const config: FailureConfig
    var seenPackets: nat

    constructor (config: FailureConfig)
      ensures this.config == config && seenPackets == 0
    {
      this.config := config;
      seenPackets := 0;
    }

    method Inject(p: Packet) returns (result: FailureResult)
      modifies this
      ensures result == Verdict(config, old(seenPackets), p)
      ensures seenPackets == SeenNext(config, old(seenPackets), p)
    {
      if !config.enabled {
        return NO_FAILURE;
      }
      var k := 0;
      while k < |config.lifecycleRules|
        invariant 0 <= k <= |config.lifecycleRules|
        invariant forall j :: 0 <= j < k ==> config.lifecycleRules[j].lifecycleId != p.lifecycleId
      {
        var rule := config.lifecycleRules[k];
        if rule.lifecycleId == p.lifecycleId {
          FirstRuleIsFirst(config.lifecycleRules, p.lifecycleId, k);
          return MakeFailureResult(rule.kind, config.delayMs);
        }
        k := k + 1;
      }
      FirstRuleIsFirst(config.lifecycleRules, p.lifecycleId, k);
      if config.everyNPackets == 0 {
        return NO_FAILURE;
      }
      if config.kind == NoFailure {
        return NO_FAILURE;
      }
      seenPackets := seenPackets + 1;
      if seenPackets % config.everyNPackets != 0 {
        return NO_FAILURE;
      }
      return MakeFailureResult(config.kind, config.delayMs);
    }
  }

  /** The injector's counter after a fresh injector has seen `ps`. */
  function SeenAfter(cfg: FailureConfig, ps: seq<Packet>): nat {
    if ps == [] then 0
    else SeenNext(cfg, SeenAfter(cfg, ps[..|ps| - 1]), ps[|ps| - 1])
  }

  /** The verdict of a fresh injector on the k-th packet of `ps`. */
  function VerdictAt(cfg: FailureConfig, ps: seq<Packet>, k: nat): FailureResult
    requires k < |ps|
  {
    Verdict(cfg, SeenAfter(cfg, ps[..k]), ps[k])
  }

  /** The packets of `ps` that no lifecycle rule matches, in order. */
  function Unmatched(cfg: FailureConfig, ps: seq<Packet>): seq<Packet> {
    if ps == [] then []
    else
      var init := Unmatched(cfg, ps[..|ps| - 1]);
      var p := ps[|ps| - 1];
      if Matched(cfg, p) then init else init + [p]
  }

  /** How many unmatched packets of `ps` were given a failure. */
  function Injections(cfg: FailureConfig, ps: seq<Packet>): nat {
    if ps == [] then 0
    else
      var k := |ps| - 1;
      Injections(cfg, ps[..k])
      + if !Matched(cfg, ps[k]) && VerdictAt(cfg, ps, k) != NO_FAILURE then 1 else 0
  }

  ghost predicate Periodic(cfg: FailureConfig) {
    cfg.enabled && cfg.everyNPackets > 0 && cfg.kind != NoFailure
  }

  lemma {:induction false} SeenCountsUnmatched(cfg: FailureConfig, ps: seq<Packet>)
    requires Periodic(cfg)
    ensures SeenAfter(cfg, ps) == |Unmatched(cfg, ps)|
  {
    if ps == [] {
    } else {
      SeenCountsUnmatched(cfg, ps[..|ps| - 1]);
      MatchedHasRule(cfg.lifecycleRules, ps[|ps| - 1]);
    }
  }

  /** The m-th unmatched packet is failed exactly when n divides m. */
  lemma EveryNthUnmatchedFails(cfg: FailureConfig, ps: seq<Packet>, k: nat)
    requires Periodic(cfg) && k < |ps| && !Matched(cfg, ps[k])
    ensures var m := |Unmatched(cfg, ps[..k + 1])|;
            VerdictAt(cfg, ps, k) ==
            if m % cfg.everyNPackets == 0 then MakeFailureResult(cfg.kind, cfg.delayMs) else NO_FAILURE
  {
    SeenCountsUnmatched(cfg, ps[..k]);
    MatchedHasRule(cfg.lifecycleRules, ps[k]);
    assert ps[..k + 1][..k] == ps[..k];
  }

  /** A matched packet takes its first matching rule, whatever was seen before. */
  lemma RuleDecidesMatched(cfg: FailureConfig, seen: nat, p: Packet, k: nat)
    requires cfg.enabled && k < |cfg.lifecycleRules|
    requires cfg.lifecycleRules[k].lifecycleId == p.lifecycleId
    requires forall j :: 0 <= j < k ==> cfg.lifecycleRules[j].lifecycleId != p.lifecycleId
    ensures Verdict(cfg, seen, p) == MakeFailureResult(cfg.lifecycleRules[k].kind, cfg.delayMs)
    ensures SeenNext(cfg, seen, p) == seen
  {
    FirstRuleIsFirst(cfg.lifecycleRules, p.lifecycleId, k);
  }

  /** What each kind of failure does: four kinds end the packet, a delay lets it pass after the
      configured time, and no failure does nothing. */
  lemma FailureKinds(kind: FailureType, delayMs: real)
    ensures var r := MakeFailureResult(kind, delayMs);
            && r.kind == kind
            && (r.isTerminal
                <==> kind in {MalformedPacket, InvalidPacket, Loss, ProcessingRejection})
            && (kind == ArtificialDelay ==> r.delayMs == delayMs)
            && (kind != ArtificialDelay ==> r.delayMs == 0.0)
  {
  }

  /** The kinds of failure that a policy has for a packet: the kinds of its rules, or without
      one the periodic kind. */
  ghost predicate Configured(cfg: FailureConfig, p: Packet, kind: FailureType) {
    && cfg.enabled
    && if Matched(cfg, p) then
         exists k :: 0 <= k < |cfg.lifecycleRules| && cfg.lifecycleRules[k] == FailureRule(p.lifecycleId, kind)
       else cfg.everyNPackets > 0 && cfg.kind == kind
  }

  lemma {:induction false} FirstRuleIsARule(rules: seq<FailureRule>, lifecycleId: nat)
    ensures match FirstRule(rules, lifecycleId)
            case Some(kind) => FailureRule(lifecycleId, kind) in rules
            case None => forall k :: 0 <= k < |rules| ==> rules[k].lifecycleId != lifecycleId
  {
    if rules == [] {
    } else {
      FirstRuleIsARule(rules[1..], lifecycleId);
      assert rules == [rules[0]] + rules[1..];
    }
  }

  /** A packet is failed only in a way that the policy has for it; a disabled injector, or one
      with neither a rule for the packet nor a period, fails nothing. */
  lemma FailsOnlyAsConfigured(cfg: FailureConfig, seen: nat, p: Packet)
    ensures var v := Verdict(cfg, seen, p);
            && (v.kind != NoFailure ==> Configured(cfg, p, v.kind))
            && (v.isTerminal <==> v.kind in {MalformedPacket, InvalidPacket, Loss, ProcessingRejection})
            && (!cfg.enabled ==> v == FailureResult(NoFailure, false, 0.0) && SeenNext(cfg, seen, p) == seen)
            && (!Matched(cfg, p) && cfg.everyNPackets == 0 ==> v == FailureResult(NoFailure, false, 0.0))
  {
    FirstRuleIsARule(cfg.lifecycleRules, p.lifecycleId);
    MatchedHasRule(cfg.lifecycleRules, p);
    var v := Verdict(cfg, seen, p);
    if cfg.enabled && Matched(cfg, p) {
      var kind := FirstRule(cfg.lifecycleRules, p.lifecycleId).value;
      var k :| 0 <= k < |cfg.lifecycleRules| && cfg.lifecycleRules[k] == FailureRule(p.lifecycleId, kind);
      FailureKinds(kind, cfg.delayMs);
    }
  }

  lemma DivideNext(m: nat, n: nat)
    requires n > 0
    ensures (m + 1) / n == m / n + if (m + 1) % n == 0 then 1 else 0
  {
    var q, r := m / n, m % n;
    assert m == q * n + r;
    if r + 1 == n {
      assert m + 1 == (q + 1) * n;
      QuotientUnique(m + 1, n, q + 1, 0);
    } else {
      QuotientUnique(m + 1, n, q, r + 1);
    }
  }

  lemma QuotientUnique(m: nat, n: nat, q: nat, r: nat)
    requires n > 0 && r < n && m == q * n + r
    ensures m / n == q && m % n == r
  {
    var d := m / n - q;
    assert d * n == r - m % n;
    MultipleGrows(d, n);
  }

  lemma MultipleGrows(d: int, n: int)
    requires n > 0
    ensures d >= 1 ==> d * n >= n
    ensures d <= -1 ==> d * n <= 0 - n
  {
  }

  /** M unmatched packets are given exactly floor(M / n) failures. */
  lemma {:induction false} InjectionCount(cfg: FailureConfig, ps: seq<Packet>)
    requires Periodic(cfg)
    ensures Injections(cfg, ps) == |Unmatched(cfg, ps)| / cfg.everyNPackets
  {
    if ps == [] {
    } else {
      var k := |ps| - 1;
      InjectionCount(cfg, ps[..k]);
      if !Matched(cfg, ps[k]) {
        EveryNthUnmatchedFails(cfg, ps, k);
        assert ps[..k + 1] == ps;
        DivideNext(|Unmatched(cfg, ps[..k])|, cfg.everyNPackets);
      }
    }
  }

  /** Matched packets do not shift the schedule: an unmatched packet gets the verdict it
      would get if all matched packets had never arrived. */
  lemma MatchedDoNotShift(cfg: FailureConfig, ps: seq<Packet>, k: nat)
    requires Periodic(cfg) && k < |ps| && !Matched(cfg, ps[k])
    ensures var us := Unmatched(cfg, ps[..k + 1]);
            |us| > 0 && us[|us| - 1] == ps[k]
            && VerdictAt(cfg, ps, k) == VerdictAt(cfg, us, |us| - 1)
  {
    var us := Unmatched(cfg, ps[..k + 1]);
    assert ps[..k + 1][..k] == ps[..k];
    var before := Unmatched(cfg, ps[..k]);
    assert us[..|us| - 1] == before;
    SeenCountsUnmatched(cfg, ps[..k]);
    UnmatchedIdempotent(cfg, ps[..k]);
    SeenCountsUnmatched(cfg, before);
  }

  lemma {:induction false} UnmatchedIdempotent(cfg: FailureConfig, ps: seq<Packet>)
    ensures Unmatched(cfg, Unmatched(cfg, ps)) == Unmatched(cfg, ps)
  {
    if ps == [] {
    } else {
      var init := Unmatched(cfg, ps[..|ps| - 1]);
      var p := ps[|ps| - 1];
      UnmatchedIdempotent(cfg, ps[..|ps| - 1]);
      if !Matched(cfg, p) {
        assert (init + [p])[..|init|] == init;
      }
    }
  }
}
