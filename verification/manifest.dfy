/** Driver manifests: how a manifest scores a device. */
module Manifest {
  import opened Core
  import opened Inventory

  datatype DriverPriority = Fallback | Generic | Preferred | Exact {
    function BaseScore(): U32 {
      match this
      case Fallback => 25
      case Generic => 100
      case Preferred => 200
      case Exact => 300
    }
  }

  /** A rule; its conditions are one predicate on devices. */
  datatype MatchRule = MatchRule(score: U32, matches: Descriptor -> bool)

  datatype DriverManifest = DriverManifest(
    id: string,
    interfaces: seq<InterfaceKind>,
    kinds: seq<DeviceKind>,
    priority: DriverPriority,
    rules: seq<MatchRule>
  )

  /** The reason texts of a match are left out. */
  datatype ManifestMatch = ManifestMatch(
    matched: bool, priority: DriverPriority, score: U32, matchedRule: Option<nat>)

  const UNSUPPORTED: ManifestMatch := ManifestMatch(false, Fallback, 0, None)

  /** `u32` addition as in a release build. */
  function Add32(a: U32, b: U32): U32 {
    (a + b) % 0x1_0000_0000
  }

  /** Rule `best` matches, no matching rule scores higher, and none before it scores as high. */
  ghost predicate IsBestRule(rules: seq<MatchRule>, device: Descriptor, best: nat) {
    && best < |rules| && rules[best].matches(device)
    && (forall i :: 0 <= i < |rules| && rules[i].matches(device) ==> rules[i].score <= rules[best].score)
    && (forall i :: 0 <= i < best && rules[i].matches(device) ==> rules[i].score < rules[best].score)
  }

  ghost predicate SomeRuleMatches(rules: seq<MatchRule>, device: Descriptor) {
    exists i :: 0 <= i < |rules| && rules[i].matches(device)
  }

  ghost predicate Eligible(manifest: DriverManifest, device: Descriptor) {
    && device.interface in manifest.interfaces
    && (manifest.kinds == [] || device.kind in manifest.kinds)
  }

  /** Base score plus the bonus for a listed kind; never more than 325. */
  function FixedScore(manifest: DriverManifest): U32 {
    manifest.priority.BaseScore() + if manifest.kinds == [] then 0 else 25
  }

  /** The bonus for a listed kind never makes up for a lower priority. */
  lemma PriorityOutweighsKinds(higher: DriverManifest, lower: DriverManifest)
    requires higher.priority.BaseScore() > lower.priority.BaseScore()
    ensures FixedScore(higher) > FixedScore(lower)
    ensures lower.priority.Fallback? || higher.priority.Exact?
      || (lower.priority.Generic? && higher.priority.Preferred?)
  {
  }

  /** What a match must be: which manifests match, by which rule and with which score. */
  ghost predicate IsMatch(manifest: DriverManifest, device: Descriptor, m: ManifestMatch) {
    if !Eligible(manifest, device) || (manifest.rules != [] && !SomeRuleMatches(manifest.rules, device))
    then m == UNSUPPORTED
    else
      && m.matched && m.priority == manifest.priority
      && if manifest.rules == [] then m.matchedRule.None? && m.score == FixedScore(manifest)
         else
           && m.matchedRule.Some? && IsBestRule(manifest.rules, device, m.matchedRule.value)
           && m.score == Add32(FixedScore(manifest), manifest.rules[m.matchedRule.value].score)
  }

  method MatchDevice(manifest: DriverManifest, device: Descriptor) returns (m: ManifestMatch)
    ensures IsMatch(manifest, device, m)
  {
    if device.interface !in manifest.interfaces {
      return UNSUPPORTED;
    }
    var score: U32 := manifest.priority.BaseScore();
    if manifest.kinds != [] {
      if device.kind !in manifest.kinds {
        return UNSUPPORTED;
      }
      score := Add32(score, 25);
    }
    if manifest.rules == [] {
      return ManifestMatch(true, manifest.priority, score, None);
    }
    var bestRule: Option<nat> := None;
    var bestScore: U32 := 0;
    for index := 0 to |manifest.rules|
      invariant bestRule.None? <==> !SomeRuleMatches(manifest.rules[..index], device)
      invariant bestRule.Some? ==>
        IsBestRule(manifest.rules[..index], device, bestRule.value)
        && bestScore == manifest.rules[bestRule.value].score
    {
      var rule := manifest.rules[index];
      assert manifest.rules[..index + 1] == manifest.rules[..index] + [rule];
      if rule.matches(device) && (bestRule.None? || rule.score > bestScore) {
        bestRule := Some(index);
        bestScore := rule.score;
      }
    }
    assert manifest.rules[..|manifest.rules|] == manifest.rules;
    match bestRule {
      case None => m := UNSUPPORTED;
      case Some(index) =>
        score := Add32(score, manifest.rules[index].score);
        m := ManifestMatch(true, manifest.priority, score, Some(index));
    }
  }

  lemma MatchUnique(manifest: DriverManifest, device: Descriptor, m: ManifestMatch, n: ManifestMatch)
    requires IsMatch(manifest, device, m) && IsMatch(manifest, device, n)
    ensures m == n
  {
  }

  /** Reordering the rules changes neither whether the manifest matches nor the score. */
  lemma RuleOrderIrrelevant(
      manifest: DriverManifest, reordered: DriverManifest, device: Descriptor, m: ManifestMatch, n: ManifestMatch)
    requires reordered == manifest.(rules := reordered.rules)
    requires multiset(reordered.rules) == multiset(manifest.rules)
    requires IsMatch(manifest, device, m) && IsMatch(reordered, device, n)
    ensures m.matched == n.matched && m.score == n.score && m.priority == n.priority
  {
    SameRules(manifest.rules, reordered.rules);
    SameRules(reordered.rules, manifest.rules);
    if i :| 0 <= i < |manifest.rules| && manifest.rules[i].matches(device) {
      assert manifest.rules[i] in reordered.rules;
    }
    if i :| 0 <= i < |reordered.rules| && reordered.rules[i].matches(device) {
      assert reordered.rules[i] in manifest.rules;
    }
    if m.matchedRule.Some? && n.matchedRule.Some? {
      assert manifest.rules[m.matchedRule.value] in reordered.rules;
      assert reordered.rules[n.matchedRule.value] in manifest.rules;
    }
  }

  lemma SameRules(rules: seq<MatchRule>, reordered: seq<MatchRule>)
    requires multiset(rules) == multiset(reordered)
    ensures |rules| == |reordered|
    ensures forall r :: r in rules ==> r in reordered
  {
    assert |multiset(rules)| == |multiset(reordered)|;
    forall r | r in rules ensures r in reordered {
      assert r in multiset(rules);
    }
  }

  /** The exact score when no addition wraps around. */
  lemma ScoreWithoutOverflow(manifest: DriverManifest, device: Descriptor, m: ManifestMatch, i: nat)
    requires IsMatch(manifest, device, m) && m.matched
    requires i < |manifest.rules| && manifest.rules[i].matches(device)
    requires forall r :: r in manifest.rules ==> FixedScore(manifest) + r.score < 0x1_0000_0000
    ensures m.score >= FixedScore(manifest) + manifest.rules[i].score
    ensures
      exists k :: 0 <= k < |manifest.rules| && manifest.rules[k].matches(device)
        && m.score == FixedScore(manifest) + manifest.rules[k].score
  {
  }
}
