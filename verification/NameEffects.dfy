/** What each write of a naming policy or of an environment does, and what the filter, the
    messages and the grace mean, said of the columns alone. */
module NameEffects {
  import opened Numbers
  import opened Options
  import opened Text
  import opened Decommission
  import opened NameCompliance

  // ----------------------------------------------------------------------- writes

  /** A live environment, other than the one at `but`, holds the name. */
  predicate Held(s: State, name: string, but: int) {
    exists k :: 0 <= k < |s.environments| && k != but && !s.environments[k].deleted && s.environments[k].name == name
  }

  /** The verdict column says what the policy judges, if it judges at all. */
  ghost predicate Verdict(m: Matcher, policy: Option<Policy>, e: Environment) {
    forall b :: e.compliant == Some(b) <==> Judges(m, policy, e.name, b)
  }

  /** A create is refused exactly when a live environment holds the name or, on the
      interactive path, the policy judges it false: so never for its name under a disabled
      policy, nor by the import or the fulfilment of a request. */
  lemma CreateExactly(m: Matcher, s: State, added: Environment, strict: bool)
    ensures Accepted(m, s, Create(added, strict)) <==>
      !Held(s, added.name, -1) && !(strict && Judges(m, s.policy, added.name, false))
    ensures Accepted(m, s, Create(added, strict)) ==>
      var s' := Apply(m, s, Create(added, strict));
      && s'.policy == s.policy && |s'.environments| == |s.environments| + 1
      && (forall i :: 0 <= i < |s.environments| ==> s'.environments[i] == s.environments[i])
      && var e := s'.environments[|s.environments|];
        e == added.(deleted := false, compliant := e.compliant) && Verdict(m, s.policy, e)
  {
    hide EvaluateName, Judges;
    VerdictExactly(m, s.policy, added.name, false);
    VerdictExactly(m, s.policy, added.name, true);
  }

  /** A patch is refused exactly when the environment is not there, it would have no owner,
      or its name changes to one a live environment holds or the policy judges false. */
  lemma PatchExactly(m: Matcher, s: State, i: nat, name: Option<string>, rest: Environment)
    ensures Accepted(m, s, Patch(i, name, rest)) <==>
      && i < |s.environments| && !s.environments[i].deleted && rest.owner.Some?
      && (Renames(s, i, name) ==> !Held(s, name.value, i) && !Judges(m, s.policy, name.value, false))
    ensures Accepted(m, s, Patch(i, name, rest)) ==>
      var s' := Apply(m, s, Patch(i, name, rest));
      && s'.policy == s.policy && |s'.environments| == |s.environments|
      && (forall k :: 0 <= k < |s.environments| && k != i ==> s'.environments[k] == s.environments[k])
      && var e, e' := s.environments[i], s'.environments[i];
        && e' == rest.(name := e'.name, compliant := e'.compliant, deleted := false, createdAt := e.createdAt)
        && (Renames(s, i, name) ==> e'.name == name.value && Verdict(m, s.policy, e'))
        && (!Renames(s, i, name) ==> e'.name == e.name && e'.compliant == e.compliant)
  {
    hide EvaluateName, Judges;
    if Renames(s, i, name) {
      VerdictExactly(m, s.policy, name.value, false);
      VerdictExactly(m, s.policy, name.value, true);
    }
  }

  predicate Renames(s: State, i: nat, name: Option<string>) {
    i < |s.environments| && name.Some? && name.value != s.environments[i].name
  }

  /** A deletion marks a live environment deleted and changes nothing else. */
  lemma DeleteExactly(m: Matcher, s: State, i: nat)
    ensures Accepted(m, s, Delete(i)) <==> i < |s.environments| && !s.environments[i].deleted
    ensures Accepted(m, s, Delete(i)) ==>
      Apply(m, s, Delete(i)) == State(s.policy, s.environments[i := s.environments[i].(deleted := true)])
  {
  }

  /** Now, if there was no policy or its pattern or its attributes were others; else as before. */
  predicate TakesEffect(before: Option<Policy>, p: Policy, now: int) {
    if before == None then p.effectiveFrom == now
    else if before.value.pattern == p.pattern && before.value.required == p.required then
      p.effectiveFrom == before.value.effectiveFrom
    else p.effectiveFrom == now
  }

  /** A save stores the rule as given. It takes effect now if there was no policy or if its
      pattern or its attributes are not those of before, and otherwise when it did; every
      live environment is judged anew and nothing else of it changes. */
  lemma SaveExactly(
    m: Matcher, s: State, enabled: bool, pattern: Option<string>, required: seq<Attribute>, graceDays: nat, now: int)
    ensures var s' := Apply(m, s, SavePolicy(enabled, pattern, required, graceDays, now));
      && s'.policy.Some?
      && s'.policy.value == Policy(enabled, pattern, required, graceDays, s'.policy.value.effectiveFrom)
      && TakesEffect(s.policy, s'.policy.value, now)
      && |s'.environments| == |s.environments|
      && forall i :: 0 <= i < |s.environments| ==>
        && s'.environments[i] == s.environments[i].(compliant := s'.environments[i].compliant)
        && (s.environments[i].deleted ==> s'.environments[i] == s.environments[i])
        && (!s.environments[i].deleted ==> Verdict(m, s'.policy, s'.environments[i]))
  {
    hide EvaluateName, Judges;
    var s' := Apply(m, s, SavePolicy(enabled, pattern, required, graceDays, now));
    forall i | 0 <= i < |s.environments| && !s.environments[i].deleted
      ensures Verdict(m, s'.policy, s'.environments[i])
    {
      VerdictExactly(m, s'.policy, s.environments[i].name, false);
      VerdictExactly(m, s'.policy, s.environments[i].name, true);
    }
  }

  // ------------------------------------------------------------------------- gaps

  /** Every character is white space. */
  predicate Blank(s: string) {
    forall i :: 0 <= i < |s| ==> IsSpace(s[i])
  }

  predicate Spaces(s: string) {
    forall i :: 0 <= i < |s| ==> s[i] == ' '
  }

  lemma {:induction false} StripBlank(s: string)
    ensures Strip(s) == "" <==> Blank(s)
    decreases |s|
  {
    if s != "" {
      if IsSpace(s[0]) {
        StripBlank(s[1..]);
        assert forall i :: 1 <= i < |s| ==> s[i] == s[1..][i - 1];
      } else if IsSpace(s[|s| - 1]) {
        StripBlank(s[..|s| - 1]);
        assert s[..|s| - 1][0] == s[0];
      }
    }
  }

  lemma {:induction false} TrimSpaces(s: string)
    ensures Trim(s) == "" <==> Spaces(s)
    decreases |s|
  {
    if s != "" {
      if s[0] == ' ' {
        TrimSpaces(s[1..]);
        assert forall i :: 1 <= i < |s| ==> s[i] == s[1..][i - 1];
      } else {
        TrimStops(s);
      }
    }
  }

  /** What the page calls missing, and what the database does. */
  lemma LacksExactly(e: Environment, key: string)
    ensures Lacks(e, Owner) <==> e.owner == None
    ensures Lacks(e, Expiry) <==> e.expires == None
    ensures Lacks(e, OperationsGroup) <==> e.group == None
    ensures Lacks(e, Custom(key)) <==> (key in e.fields ==> Blank(e.fields[key]))
    ensures LacksInDatabase(e, Owner) <==> e.owner == None
    ensures LacksInDatabase(e, Expiry) <==> e.expires == None
    ensures LacksInDatabase(e, OperationsGroup) <==> e.group == None
    ensures LacksInDatabase(e, Custom(key)) <==> (key in e.fields ==> Spaces(e.fields[key]))
  {
    if key in e.fields {
      StripBlank(e.fields[key]);
      TrimSpaces(e.fields[key]);
    }
  }

  /** The messages are the mismatch, first, exactly when the verdict is false, and then one
      for each required attribute that is missing, in order. */
  lemma {:induction false} MessagesExactly(e: Environment, required: seq<Attribute>, verdict: Option<bool>)
    ensures var messages := GapMessages(e, required, verdict);
      && (NameMismatch in messages <==> verdict == Some(false))
      && (verdict == Some(false) ==> messages[0] == NameMismatch)
      && (forall a :: Missing(a) in messages <==> a in required && Lacks(e, a))
      && forall k :: (if verdict == Some(false) then 1 else 0) <= k < |messages| ==> messages[k].Missing?
  {
    GapsExactly(e, required);
  }

  lemma {:induction false} GapsExactly(e: Environment, required: seq<Attribute>)
    ensures forall a :: Missing(a) in GapsOf(e, required) <==> a in required && Lacks(e, a)
    ensures forall g :: g in GapsOf(e, required) ==> g.Missing?
  {
    if required != [] {
      GapsExactly(e, required[1..]);
      assert forall a :: a in required <==> a == required[0] || a in required[1..];
    }
  }

  /** The filter: an enabled policy, and a false verdict or a required attribute missing. */
  lemma FilterExactly(policy: Option<Policy>, e: Environment)
    ensures NoncomplianceClause(policy, e) <==> (policy.Some? && policy.value.enabled
      && (e.compliant == Some(false) || exists a :: a in policy.value.required && LacksInDatabase(e, a)))
  {
    if policy.Some? && exists a :: a in policy.value.required && LacksInDatabase(e, a) {
      var a :| a in policy.value.required && LacksInDatabase(e, a);
      var i :| 0 <= i < |policy.value.required| && policy.value.required[i] == a;
      assert LacksInDatabase(e, policy.value.required[i]);
    }
  }

  /** Quarantine: in the filter, and both the rule and the environment older than the grace,
      counted in days back from the start of today. */
  lemma QuarantineExactly(policy: Policy, e: Environment, now: int)
    ensures var today := now - now % 86_400_000_000;
      QuarantineClause(Some(policy), e, now) <==> (NoncomplianceClause(Some(policy), e)
        && policy.effectiveFrom + policy.graceDays * 86_400_000_000 <= today
        && e.createdAt + policy.graceDays * 86_400_000_000 <= today)
  {
  }

  /** The sample is the first of the names, twenty at most. */
  lemma SampleExactly(names: seq<string>)
    ensures |Capped(names)| == (if |names| < 20 then |names| else 20) && Capped(names) <= names
  {
  }

  /** A name is counted and sampled exactly when it is that of a live environment in gap. */
  lemma {:induction false} SampledExactly(environments: seq<Environment>, p: Environment -> bool, name: string)
    ensures name in NamesOf(environments, p) <==>
      exists i :: 0 <= i < |environments| && !environments[i].deleted && p(environments[i]) && environments[i].name == name
  {
    if environments != [] {
      var n := |environments| - 1;
      SampledExactly(environments[..n], p, name);
      assert forall i :: 0 <= i < n ==> environments[..n][i] == environments[i];
    }
  }

  /** A preview judges by what is given and, for what is not, by what is saved; it counts an
      environment whose name that pattern does not match, or that lacks one of those
      attributes. */
  lemma PreviewedExactly(m: Matcher, pattern: Option<string>, required: seq<Attribute>, e: Environment)
    ensures CandidateGap(m, pattern, required)(e) <==>
      || Judges(m, Some(Policy(true, pattern, required, 0, 0)), e.name, false)
      || exists a :: a in required && Lacks(e, a)
  {
    GapsExactly(e, required);
    var gaps := GapsOf(e, required);
    if gaps != [] {
      assert gaps[0] in gaps;
      assert Missing(gaps[0].attribute) in gaps;
    }
  }

  lemma CandidateExactly(policy: Option<Policy>, pattern: Option<string>, required: Option<seq<Attribute>>)
    ensures pattern.Some? ==> CandidatePattern(policy, pattern) == pattern
    ensures pattern.None? ==> CandidatePattern(policy, pattern) == (if policy.Some? then policy.value.pattern else None)
    ensures required.Some? ==> CandidateRequired(policy, required) == required.value
    ensures required.None? ==> CandidateRequired(policy, required) == (if policy.Some? then policy.value.required else [])
  {
  }
}
