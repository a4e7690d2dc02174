/** The naming policy of one tenant: the verdict stored on each environment, what is
    required of it beside its name, and what a policy would do before it is saved.

    Matching a name against a pattern is a parameter: it answers whether the name
    matches, or that the pattern could not be evaluated. */
module NameCompliance {
  import opened Numbers
  import opened Options
  import opened Text
  import opened Decommission
  import opened Sequences

  const MAX_NAME_LENGTH: nat := 200
  const PREVIEW_SAMPLE_LIMIT: nat := 20

  type Matcher = (string, string) -> Option<bool>

  datatype Attribute = Owner | Expiry | OperationsGroup | Custom(key: string)

  datatype Policy = Policy(
    enabled: bool, pattern: Option<string>, required: seq<Attribute>, graceDays: nat, effectiveFrom: int)

  /** `compliant` is the stored verdict. A custom field is the text of its value. */
  datatype Environment = Environment(
    name: string, deleted: bool, owner: Option<int>, expires: Option<int>, group: Option<int>,
    fields: map<string, string>, createdAt: int, compliant: Option<bool>)

  // ------------------------------------------------------------------- the verdict

  function NameMatches(m: Matcher, pattern: string, name: string): Option<bool> {
    if |name| > MAX_NAME_LENGTH then Some(false) else m(pattern, name)
  }

  function PatternInForce(policy: Option<Policy>): Option<string> {
    if policy.None? || !policy.value.enabled || policy.value.pattern.None? || policy.value.pattern.value == "" then None
    else policy.value.pattern
  }

  function EvaluateName(m: Matcher, policy: Option<Policy>, name: string): Option<bool> {
    match PatternInForce(policy)
    case None => None
    case Some(pattern) => NameMatches(m, pattern, name)
  }

  /** The policy judges the name `b`: it is enabled and has a pattern, and either the name is
      too long to store, or the matcher says `b` of that pattern and that name. */
  predicate Judges(m: Matcher, policy: Option<Policy>, name: string, b: bool) {
    && policy.Some? && policy.value.enabled && policy.value.pattern.Some? && |policy.value.pattern.value| > 0
    && ((|name| > 200 && !b) || (|name| <= 200 && m(policy.value.pattern.value, name) == Some(b)))
  }

  /** There is a verdict exactly when the policy judges the name, and it is that one. */
  lemma VerdictExactly(m: Matcher, policy: Option<Policy>, name: string, b: bool)
    ensures EvaluateName(m, policy, name) == Some(b) <==> Judges(m, policy, name, b)
  {
  }

  /** The one refusal: a changed name the pattern in force does not match. */
  predicate NameAllowed(m: Matcher, policy: Option<Policy>, submitted: string, stored: Option<string>) {
    stored == Some(submitted) || EvaluateName(m, policy, submitted) != Some(false)
  }

  // ------------------------------------------------------------------------- gaps

  datatype Gap = NameMismatch | Missing(attribute: Attribute)

  predicate Lacks(e: Environment, a: Attribute) {
    match a
    case Owner => e.owner.None?
    case Expiry => e.expires.None?
    case OperationsGroup => e.group.None?
    case Custom(key) => key !in e.fields || Strip(e.fields[key]) == ""
  }

  function GapsOf(e: Environment, required: seq<Attribute>): seq<Gap> {
    if required == [] then []
    else (if Lacks(e, required[0]) then [Missing(required[0])] else []) + GapsOf(e, required[1..])
  }

  /** Why an environment is in gap, over a verdict that need not be the stored one. */
  function GapMessages(e: Environment, required: seq<Attribute>, verdict: Option<bool>): seq<Gap> {
    (if verdict == Some(false) then [NameMismatch] else []) + GapsOf(e, required)
  }

  function Trim(s: string): string {
    if s == "" then ""
    else if s[0] == ' ' then Trim(s[1..])
    else if s[|s| - 1] == ' ' then Trim(s[..|s| - 1])
    else s
  }

  /** What the database's clause for one attribute says: it trims spaces only. */
  predicate LacksInDatabase(e: Environment, a: Attribute) {
    if a.Custom? then a.key !in e.fields || Trim(e.fields[a.key]) == "" else Lacks(e, a)
  }

  predicate NoncomplianceClause(policy: Option<Policy>, e: Environment) {
    policy.Some? && policy.value.enabled &&
    (e.compliant == Some(false) || exists i :: 0 <= i < |policy.value.required| && LacksInDatabase(e, policy.value.required[i]))
  }

  function Cutoff(graceDays: nat, now: int): int {
    ExpiryBoundary(now) - graceDays * DAY
  }

  predicate QuarantineClause(policy: Option<Policy>, e: Environment, now: int) {
    && policy.Some? && policy.value.enabled
    && policy.value.effectiveFrom <= Cutoff(policy.value.graceDays, now)
    && NoncomplianceClause(policy, e)
    && e.createdAt <= Cutoff(policy.value.graceDays, now)
  }

  lemma {:induction false} GapExactly(e: Environment, required: seq<Attribute>)
    ensures GapsOf(e, required) == [] <==> forall i :: 0 <= i < |required| ==> !Lacks(e, required[i])
  {
    if required != [] {
      GapExactly(e, required[1..]);
      assert forall i :: 1 <= i < |required| ==> required[i] == required[1..][i - 1];
    }
  }

  lemma {:induction false} TrimStops(s: string)
    requires s != "" && s[0] != ' '
    ensures Trim(s) != ""
  {
    if s[|s| - 1] == ' ' {
      TrimStops(s[..|s| - 1]);
    }
  }

  lemma {:induction false} TrimIsWeaker(s: string)
    ensures Trim(s) == "" ==> Strip(s) == ""
  {
    if s != "" {
      if s[0] == ' ' {
        TrimIsWeaker(s[1..]);
      } else {
        TrimStops(s);
      }
    }
  }

  /** A value of white space that is not spaces alone: the page calls it missing and the
      database does not. */
  predicate BlankButNotSpaces(e: Environment, a: Attribute) {
    a.Custom? && a.key in e.fields && Strip(e.fields[a.key]) == "" && Trim(e.fields[a.key]) != ""
  }

  /** The filter and the messages disagree about an attribute exactly on such values. */
  lemma AttributeAgreesExactly(e: Environment, a: Attribute)
    ensures LacksInDatabase(e, a) != Lacks(e, a) <==> BlankButNotSpaces(e, a)
  {
    if a.Custom? && a.key in e.fields {
      TrimIsWeaker(e.fields[a.key]);
    }
  }

  /** The filter selects an environment exactly when it has something to say about it,
      save for values of white space that are not spaces alone. */
  lemma ClauseAgrees(policy: Policy, e: Environment)
    requires policy.enabled
    requires forall i :: 0 <= i < |policy.required| ==> !BlankButNotSpaces(e, policy.required[i])
    ensures NoncomplianceClause(Some(policy), e) <==> GapMessages(e, policy.required, e.compliant) != []
  {
    GapExactly(e, policy.required);
    forall i | 0 <= i < |policy.required|
      ensures LacksInDatabase(e, policy.required[i]) <==> Lacks(e, policy.required[i])
    {
      AttributeAgreesExactly(e, policy.required[i]);
    }
  }

  /** The filter and the page disagree about an environment exactly when its name passes,
      some required value is white space that is not spaces alone, and nothing is lacking
      but such values; then the page says it is in gap and the filter passes it over. */
  lemma ClauseDisagreesExactly(policy: Policy, e: Environment)
    requires policy.enabled
    ensures (NoncomplianceClause(Some(policy), e) <==> GapMessages(e, policy.required, e.compliant) == []) <==>
      && e.compliant != Some(false)
      && (exists i :: 0 <= i < |policy.required| && BlankButNotSpaces(e, policy.required[i]))
      && forall i :: 0 <= i < |policy.required| && Lacks(e, policy.required[i]) ==> BlankButNotSpaces(e, policy.required[i])
  {
    GapExactly(e, policy.required);
    forall i | 0 <= i < |policy.required|
      ensures LacksInDatabase(e, policy.required[i]) <==>
        Lacks(e, policy.required[i]) && !BlankButNotSpaces(e, policy.required[i])
      ensures BlankButNotSpaces(e, policy.required[i]) ==> Lacks(e, policy.required[i])
    {
      AttributeAgreesExactly(e, policy.required[i]);
    }
  }

  // -------------------------------------------------------------------- the estate

  datatype State = State(policy: Option<Policy>, environments: seq<Environment>)

  function Judge(m: Matcher, policy: Option<Policy>, e: Environment): Environment {
    if e.deleted then e else e.(compliant := EvaluateName(m, policy, e.name))
  }

  function JudgeAll(m: Matcher, policy: Option<Policy>, environments: seq<Environment>): (judged: seq<Environment>)
    ensures |judged| == |environments|
    ensures forall i :: 0 <= i < |environments| ==> judged[i] == Judge(m, policy, environments[i])
  {
    if environments == [] then []
    else
      JudgeAll(m, policy, environments[..|environments| - 1]) + [Judge(m, policy, environments[|environments| - 1])]
  }

  /** Has the rule itself changed: its pattern or its attributes. */
  predicate RuleChanged(policy: Option<Policy>, pattern: Option<string>, required: seq<Attribute>) {
    match policy
    case None => (pattern.Some? && pattern.value != "") || required != []
    case Some(p) => p.pattern != pattern || p.required != required
  }

  /** The policy row after a save; a new row takes effect at once. */
  function Saved(
    policy: Option<Policy>, enabled: bool, pattern: Option<string>, required: seq<Attribute>, graceDays: nat,
    now: int): Policy
  {
    var from := if policy.None? || RuleChanged(policy, pattern, required) then now else policy.value.effectiveFrom;
    Policy(enabled, pattern, required, graceDays, from)
  }

  predicate NameTaken(environments: seq<Environment>, name: string, but: int) {
    exists i :: 0 <= i < |environments| && i != but && !environments[i].deleted && environments[i].name == name
  }

  /** Each write: a save of the policy that its validation accepted, a creation (`strict`
      where the name may be refused; the import and the fulfilment of a request record the
      verdict and refuse nothing), a patch, and a deletion. */
  datatype Write =
    | SavePolicy(enabled: bool, pattern: Option<string>, required: seq<Attribute>, graceDays: nat, now: int)
    | Create(added: Environment, strict: bool)
    | Patch(i: nat, name: Option<string>, rest: Environment)
    | Delete(i: nat)

  predicate Live(s: State, i: nat) {
    i < |s.environments| && !s.environments[i].deleted
  }

  predicate Accepted(m: Matcher, s: State, w: Write) {
    match w
    case SavePolicy(_, _, _, _, _) => true
    case Create(added, strict) =>
      !NameTaken(s.environments, added.name, -1) && (strict ==> NameAllowed(m, s.policy, added.name, None))
    case Patch(i, name, rest) =>
      Live(s, i) && rest.owner.Some? && (name.Some? && name.value != s.environments[i].name ==>
        !NameTaken(s.environments, name.value, i) && NameAllowed(m, s.policy, name.value, Some(s.environments[i].name)))
    case Delete(i) => Live(s, i)
  }

  function Patched(m: Matcher, policy: Option<Policy>, e: Environment, name: Option<string>, rest: Environment): Environment {
    var kept := rest.(name := e.name, compliant := e.compliant, deleted := false, createdAt := e.createdAt);
    if name.Some? && name.value != e.name then
      kept.(name := name.value, compliant := EvaluateName(m, policy, name.value))
    else kept
  }

  /** A refused write changes nothing. */
  function Apply(m: Matcher, s: State, w: Write): State {
    if !Accepted(m, s, w) then s
    else match w
      case SavePolicy(enabled, pattern, required, graceDays, now) =>
        var policy := Saved(s.policy, enabled, pattern, required, graceDays, now);
        State(Some(policy), JudgeAll(m, Some(policy), s.environments))
      case Create(added, _) =>
        s.(environments := s.environments
          + [added.(deleted := false, compliant := EvaluateName(m, s.policy, added.name))])
      case Patch(i, name, rest) =>
        s.(environments := s.environments[i := Patched(m, s.policy, s.environments[i], name, rest)])
      case Delete(i) =>
        s.(environments := s.environments[i := s.environments[i].(deleted := true)])
  }

  function Run(m: Matcher, s: State, writes: seq<Write>): State {
    if writes == [] then s else Apply(m, Run(m, s, writes[..|writes| - 1]), writes[|writes| - 1])
  }

  ghost predicate VerdictsCurrent(m: Matcher, s: State) {
    forall i :: 0 <= i < |s.environments| && !s.environments[i].deleted ==>
      s.environments[i].compliant == EvaluateName(m, s.policy, s.environments[i].name)
  }

  ghost predicate NamesUnique(s: State) {
    forall i, j :: 0 <= i < j < |s.environments| && !s.environments[i].deleted && !s.environments[j].deleted ==>
      s.environments[i].name != s.environments[j].name
  }

  ghost predicate Consistent(m: Matcher, s: State) {
    VerdictsCurrent(m, s) && NamesUnique(s)
  }

  lemma ApplyKeeps(m: Matcher, s: State, w: Write)
    requires Consistent(m, s)
    ensures Consistent(m, Apply(m, s, w))
  {
    hide EvaluateName, NameAllowed;
  }

  /** After any run of saves, creations, renames, fulfilments and deletions, the verdict
      stored on every live environment is the one the current policy gives its current
      name, there or not, and no two live environments share a name. */
  lemma {:induction false} VerdictsAlwaysCurrent(m: Matcher, writes: seq<Write>)
    ensures Consistent(m, Run(m, State(None, []), writes))
    ensures var s := Run(m, State(None, []), writes);
      forall i, b :: 0 <= i < |s.environments| && !s.environments[i].deleted ==>
        (s.environments[i].compliant == Some(b) <==> Judges(m, s.policy, s.environments[i].name, b))
  {
    hide EvaluateName, Judges;
    if writes != [] {
      var front := writes[..|writes| - 1];
      VerdictsAlwaysCurrent(m, front);
      ApplyKeeps(m, Run(m, State(None, []), front), writes[|writes| - 1]);
    }
    var s := Run(m, State(None, []), writes);
    forall i, b | 0 <= i < |s.environments| && !s.environments[i].deleted
      ensures s.environments[i].compliant == Some(b) <==> Judges(m, s.policy, s.environments[i].name, b)
    {
      VerdictExactly(m, s.policy, s.environments[i].name, b);
    }
  }

  // ------------------------------------------------------------------- the preview

  function Count(environments: seq<Environment>, p: Environment -> bool): nat {
    if environments == [] then 0
    else
      var last := environments[|environments| - 1];
      Count(environments[..|environments| - 1], p) + if !last.deleted && p(last) then 1 else 0
  }

  /** The names of the live environments that satisfy `p`, in order. */
  function NamesOf(environments: seq<Environment>, p: Environment -> bool): (names: seq<string>)
    ensures |names| == Count(environments, p)
  {
    if environments == [] then []
    else
      var last := environments[|environments| - 1];
      NamesOf(environments[..|environments| - 1], p) + if !last.deleted && p(last) then [last.name] else []
  }

  /** One more environment counts, and is named, if it is live and satisfies `p`. */
  lemma OneMore(environments: seq<Environment>, i: nat, p: Environment -> bool)
    requires i < |environments|
    ensures var e, seen := environments[i], environments[..i];
      var count, names := Count(environments[..i + 1], p), NamesOf(environments[..i + 1], p);
      if !e.deleted && p(e) then count == Count(seen, p) + 1 && names == NamesOf(seen, p) + [e.name]
      else count == Count(seen, p) && names == NamesOf(seen, p)
  {
    NextPrefix(environments, i);
  }

  lemma NoneYet(p: Environment -> bool)
    ensures Count([], p) == 0 && NamesOf([], p) == []
  {
  }

  lemma AllSeen(environments: seq<Environment>)
    ensures environments[..|environments|] == environments && environments[..0] == []
  {
  }

  predicate Anyone(e: Environment) {
    true
  }

  function Capped(names: seq<string>): seq<string> {
    if |names| < PREVIEW_SAMPLE_LIMIT then names else names[..PREVIEW_SAMPLE_LIMIT]
  }

  /** Taking one more name into a capped list. */
  function Taken(sample: seq<string>, name: string): seq<string> {
    if |sample| < PREVIEW_SAMPLE_LIMIT then sample + [name] else sample
  }

  lemma CappedSoFar(names: seq<string>, name: string)
    ensures Capped(names + [name]) == Taken(Capped(names), name)
    ensures Capped([]) == []
  {
  }

  /** What one more environment adds to each count of the pass. */
  lemma Seen(environments: seq<Environment>, i: nat, gap: Environment -> bool, aged: Environment -> bool)
    requires i < |environments|
    ensures var e, before, now := environments[i], environments[..i], environments[..i + 1];
      && Count(now, Anyone) == Count(before, Anyone) + (if e.deleted then 0 else 1)
      && Count(now, gap) == Count(before, gap) + (if !e.deleted && gap(e) then 1 else 0)
      && Count(now, aged) == Count(before, aged) + (if !e.deleted && aged(e) then 1 else 0)
      && NamesOf(now, gap) == (if !e.deleted && gap(e) then NamesOf(before, gap) + [e.name] else NamesOf(before, gap))
  {
    hide Count, NamesOf;
    OneMore(environments, i, Anyone);
    OneMore(environments, i, gap);
    OneMore(environments, i, aged);
  }

  /** The rule a preview judges by: what is given, and what is saved for the rest. */
  function CandidatePattern(policy: Option<Policy>, pattern: Option<string>): Option<string> {
    if pattern.Some? then pattern else if policy.Some? then policy.value.pattern else None
  }

  function CandidateRequired(policy: Option<Policy>, required: Option<seq<Attribute>>): seq<Attribute> {
    Or(required, if policy.Some? then policy.value.required else [])
  }

  function CandidateVerdict(m: Matcher, pattern: Option<string>, name: string): Option<bool> {
    if pattern.Some? && pattern.value != "" then NameMatches(m, pattern.value, name) else None
  }

  function CandidateGap(m: Matcher, pattern: Option<string>, required: seq<Attribute>): Environment -> bool {
    (e: Environment) => GapMessages(e, required, CandidateVerdict(m, pattern, e.name)) != []
  }

  function OldEnough(p: Environment -> bool, cutoff: int): Environment -> bool {
    (e: Environment) => p(e) && e.createdAt <= cutoff
  }

  function StoredGrace(policy: Option<Policy>): nat {
    if policy.Some? then policy.value.graceDays else 14
  }

  function StoredFrom(policy: Option<Policy>, now: int): int {
    if policy.Some? then policy.value.effectiveFrom else now
  }

  function PreviewedQuarantine(
    m: Matcher, s: State, pattern: Option<string>, required: seq<Attribute>, now: int): nat
  {
    var cutoff := Cutoff(StoredGrace(s.policy), now);
    if StoredFrom(s.policy, now) <= cutoff then
      Count(s.environments, OldEnough(CandidateGap(m, pattern, required), cutoff))
    else 0
  }

  function Filtered(policy: Policy): Environment -> bool {
    (e: Environment) => NoncomplianceClause(Some(policy), e)
  }

  function Quarantined(policy: Policy, now: int): Environment -> bool {
    (e: Environment) => QuarantineClause(Some(policy), e, now)
  }

  lemma {:induction false} CountSame(
    a: seq<Environment>, b: seq<Environment>, p: Environment -> bool, q: Environment -> bool)
    requires |a| == |b|
    requires forall i :: 0 <= i < |a| ==> a[i].deleted == b[i].deleted && (!a[i].deleted ==> p(a[i]) == q(b[i]))
    ensures Count(a, p) == Count(b, q)
  {
    if a != [] {
      CountSame(a[..|a| - 1], b[..|b| - 1], p, q);
    }
  }

  lemma {:induction false} CountNone(a: seq<Environment>, p: Environment -> bool)
    requires forall i :: 0 <= i < |a| ==> !p(a[i])
    ensures Count(a, p) == 0
  {
    if a != [] {
      CountNone(a[..|a| - 1], p);
    }
  }

  /** Required fields hold text that the page and the database call missing alike. */
  ghost predicate Plain(s: State, required: seq<Attribute>) {
    forall i, k :: 0 <= i < |s.environments| && 0 <= k < |required| ==>
      !BlankButNotSpaces(s.environments[i], required[k])
  }

  lemma CandidateIsFilter(m: Matcher, s: State, i: nat, policy: Policy)
    requires i < |s.environments| && !s.environments[i].deleted && policy.enabled && Plain(s, policy.required)
    ensures CandidateGap(m, policy.pattern, policy.required)(s.environments[i])
      == NoncomplianceClause(Some(policy), Judge(m, Some(policy), s.environments[i]))
  {
    var e := s.environments[i];
    var judged := Judge(m, Some(policy), e);
    assert judged.compliant == CandidateVerdict(m, policy.pattern, e.name);
    GapsUnjudged(e, judged, policy.required);
    forall k | 0 <= k < |policy.required| ensures !BlankButNotSpaces(judged, policy.required[k]) {
      assert !BlankButNotSpaces(e, policy.required[k]);
    }
    ClauseAgrees(policy, judged);
  }

  lemma {:induction false} GapsUnjudged(e: Environment, judged: Environment, required: seq<Attribute>)
    requires judged == e.(compliant := judged.compliant)
    ensures GapsOf(judged, required) == GapsOf(e, required)
  {
    if required != [] {
      GapsUnjudged(e, judged, required[1..]);
    }
  }

  /** The number a preview says are in gap is the number the filter selects once the same
      rule is saved and enabled. */
  lemma PreviewedGapIsSaved(m: Matcher, s: State, pattern: Option<string>, required: seq<Attribute>, now: int)
    requires Plain(s, required)
    ensures var after := Apply(m, s, SavePolicy(true, pattern, required, StoredGrace(s.policy), now));
      Count(s.environments, CandidateGap(m, pattern, required)) == Count(after.environments, Filtered(after.policy.value))
  {
    var policy := Saved(s.policy, true, pattern, required, StoredGrace(s.policy), now);
    var after := JudgeAll(m, Some(policy), s.environments);
    forall i | 0 <= i < |s.environments|
      ensures !s.environments[i].deleted ==>
        CandidateGap(m, pattern, required)(s.environments[i]) == Filtered(policy)(after[i])
    {
      if !s.environments[i].deleted {
        CandidateIsFilter(m, s, i, policy);
      }
    }
    CountSame(s.environments, after, CandidateGap(m, pattern, required), Filtered(policy));
  }

  lemma {:induction false} CountZero(a: seq<Environment>, p: Environment -> bool)
    ensures Count(a, p) == 0 <==> forall i :: 0 <= i < |a| ==> a[i].deleted || !p(a[i])
  {
    if a != [] {
      CountZero(a[..|a| - 1], p);
    }
  }

  /** Some live environment, old enough, would be in gap. */
  ghost predicate SomeOldGap(m: Matcher, s: State, pattern: Option<string>, required: seq<Attribute>, cutoff: int) {
    exists i :: 0 <= i < |s.environments| && !s.environments[i].deleted && s.environments[i].createdAt <= cutoff
      && CandidateGap(m, pattern, required)(s.environments[i])
  }

  /** The number a preview says are quarantined is the number quarantined after the save
      exactly when the save leaves the rule as it was, or the rule saved before is still in
      its grace, or no live environment past its own grace would be in gap, or there is no
      grace and the clock stands on midnight: a changed rule starts its grace anew, and the
      preview counts as if it did not. The rule saved before took effect in the past. */
  lemma PreviewedQuarantineExactly(m: Matcher, s: State, pattern: Option<string>, required: seq<Attribute>, now: int)
    requires Plain(s, required) && StoredFrom(s.policy, now) <= now
    ensures var after := Apply(m, s, SavePolicy(true, pattern, required, StoredGrace(s.policy), now));
      var cutoff := Cutoff(StoredGrace(s.policy), now);
      PreviewedQuarantine(m, s, pattern, required, now) == Count(after.environments, Quarantined(after.policy.value, now))
      <==>
        || !RuleChanged(s.policy, pattern, required)
        || StoredFrom(s.policy, now) > cutoff
        || !SomeOldGap(m, s, pattern, required, cutoff)
        || (StoredGrace(s.policy) == 0 && now == ExpiryBoundary(now))
  {
    var policy := Saved(s.policy, true, pattern, required, StoredGrace(s.policy), now);
    var after := JudgeAll(m, Some(policy), s.environments);
    var cutoff := Cutoff(policy.graceDays, now);
    CountZero(s.environments, OldEnough(CandidateGap(m, pattern, required), cutoff));
    hide CandidateGap, RuleChanged, Plain;
    if policy.effectiveFrom <= cutoff {
      QuarantineCounts(m, s, policy, now);
    } else {
      CountNone(after, Quarantined(policy, now));
    }
  }

  lemma QuarantineCounts(m: Matcher, s: State, policy: Policy, now: int)
    requires policy.enabled && Plain(s, policy.required)
    requires policy.effectiveFrom <= Cutoff(policy.graceDays, now)
    ensures Count(s.environments, OldEnough(CandidateGap(m, policy.pattern, policy.required), Cutoff(policy.graceDays, now)))
      == Count(JudgeAll(m, Some(policy), s.environments), Quarantined(policy, now))
  {
    var after := JudgeAll(m, Some(policy), s.environments);
    var aged := OldEnough(CandidateGap(m, policy.pattern, policy.required), Cutoff(policy.graceDays, now));
    forall i | 0 <= i < |s.environments|
      ensures !s.environments[i].deleted ==> aged(s.environments[i]) == Quarantined(policy, now)(after[i])
    {
      if !s.environments[i].deleted {
        CandidateIsFilter(m, s, i, policy);
      }
    }
    CountSame(s.environments, after, aged, Quarantined(policy, now));
  }

  // ----------------------------------------------------------------- the operations

  /** One tenant's policy row and environment table. */
  class Tenant {
    var policy: Option<Policy>
    var environments: seq<Environment>
    const matcher: Matcher

    ghost function View(): State
      reads this
    {
      State(policy, environments)
    }

    constructor (matcher: Matcher)
      ensures View() == State(None, []) && this.matcher == matcher
    {
      this.matcher := matcher;
      policy, environments := None, [];
    }

    method RecomputeTenant() returns (judged: nat)
      modifies this`environments
      ensures environments == JudgeAll(matcher, policy, old(environments))
      ensures judged == Count(environments, Anyone)
    {
      hide Count, JudgeAll, EvaluateName;
      judged := 0;
      var i := 0;
      NoneYet(Anyone);
      while i < |environments|
        invariant 0 <= i <= |environments| == |old(environments)|
        invariant forall k :: 0 <= k < i ==> environments[k] == Judge(matcher, policy, old(environments)[k])
        invariant forall k :: i <= k < |environments| ==> environments[k] == old(environments)[k]
        invariant judged == Count(environments[..i], Anyone)
      {
        ghost var before := environments[..i];
        if !environments[i].deleted {
          var verdict := EvaluateName(matcher, policy, environments[i].name);
          environments := environments[i := environments[i].(compliant := verdict)];
          judged := judged + 1;
        }
        assert environments[..i] == before;
        OneMore(environments, i, Anyone);
        i := i + 1;
      }
      AllSeen(environments);
    }

    /** Save an accepted rule, and judge every live environment by it. */
    method UpsertPolicy(enabled: bool, pattern: Option<string>, required: seq<Attribute>, graceDays: nat, now: int)
      modifies this
      ensures View() == Apply(matcher, old(View()), SavePolicy(enabled, pattern, required, graceDays, now))
    {
      policy := Some(Saved(policy, enabled, pattern, required, graceDays, now));
      var _ := RecomputeTenant();
    }

    method IsTaken(name: string, but: int) returns (taken: bool)
      ensures taken <==> NameTaken(environments, name, but)
    {
      for i := 0 to |environments|
        invariant forall k :: 0 <= k < i ==> k == but || environments[k].deleted || environments[k].name != name
      {
        if i != but && !environments[i].deleted && environments[i].name == name {
          return true;
        }
      }
      return false;
    }

    /** The interactive path is `strict`; the import and fulfilment are not. */
    method CreateEnvironment(e: Environment, strict: bool) returns (ok: bool)
      modifies this
      ensures ok <==> Accepted(matcher, old(View()), Create(e, strict))
      ensures View() == Apply(matcher, old(View()), Create(e, strict))
    {
      if strict && !NameAllowed(matcher, policy, e.name, None) {
        return false;
      }
      var taken := IsTaken(e.name, -1);
      if taken {
        return false;
      }
      environments := environments + [e.(deleted := false, compliant := EvaluateName(matcher, policy, e.name))];
      return true;
    }

    /** `rest` holds the other columns as the patch leaves them. */
    method UpdateEnvironment(i: nat, name: Option<string>, rest: Environment) returns (ok: bool)
      modifies this
      ensures ok <==> Accepted(matcher, old(View()), Patch(i, name, rest))
      ensures View() == Apply(matcher, old(View()), Patch(i, name, rest))
    {
      if i >= |environments| || environments[i].deleted || rest.owner.None? {
        return false;
      }
      if name.Some? && name.value != environments[i].name {
        var taken := IsTaken(name.value, i);
        if taken || !NameAllowed(matcher, policy, name.value, Some(environments[i].name)) {
          return false;
        }
      }
      environments := environments[i := Patched(matcher, policy, environments[i], name, rest)];
      return true;
    }

    method DeleteEnvironment(i: nat) returns (ok: bool)
      modifies this
      ensures ok <==> Accepted(matcher, old(View()), Delete(i))
      ensures View() == Apply(matcher, old(View()), Delete(i))
    {
      if i >= |environments| || environments[i].deleted {
        return false;
      }
      environments := environments[i := environments[i].(deleted := true)];
      return true;
    }

    /** The pass over the environments: how many, how many in gap, how many of those old
        enough, and the first names in gap. */
    method Survey(pattern: Option<string>, required: seq<Attribute>, cutoff: int, graceElapsed: bool)
      returns (total: nat, inGap: nat, quarantined: nat, sample: seq<string>)
      ensures var gap := CandidateGap(matcher, pattern, required);
        && total == Count(environments, Anyone) && inGap == Count(environments, gap)
        && quarantined == (if graceElapsed then Count(environments, OldEnough(gap, cutoff)) else 0)
        && sample == Capped(NamesOf(environments, gap))
    {
      ghost var gap := CandidateGap(matcher, pattern, required);
      ghost var aged := OldEnough(gap, cutoff);
      assert forall e: Environment :: gap(e) == (GapMessages(e, required, CandidateVerdict(matcher, pattern, e.name)) != []);
      assert forall e: Environment :: aged(e) == (gap(e) && e.createdAt <= cutoff);
      hide *;
      total, inGap, quarantined, sample := 0, 0, 0, [];
      NoneYet(gap);
      NoneYet(Anyone);
      NoneYet(aged);
      CappedSoFar([], "");
      AllSeen(environments);
      for i := 0 to |environments|
        invariant total == Count(environments[..i], Anyone)
        invariant inGap == Count(environments[..i], gap)
        invariant quarantined == if graceElapsed then Count(environments[..i], aged) else 0
        invariant sample == Capped(NamesOf(environments[..i], gap))
      {
        var e := environments[i];
        Seen(environments, i, gap, aged);
        if !e.deleted {
          total := total + 1;
          var verdict := CandidateVerdict(matcher, pattern, e.name);
          if GapMessages(e, required, verdict) != [] {
            inGap := inGap + 1;
            CappedSoFar(NamesOf(environments[..i], gap), e.name);
            sample := Taken(sample, e.name);
            if graceElapsed && e.createdAt <= cutoff {
              quarantined := quarantined + 1;
            }
          }
        }
      }
    }

    /** Who a rule would hit, were it saved and enabled. Writes nothing. */
    method PreviewPolicy(givenPattern: Option<string>, givenRequired: Option<seq<Attribute>>, now: int)
      returns (total: nat, inGap: nat, quarantined: nat, sample: seq<string>)
      ensures var pattern, required := CandidatePattern(policy, givenPattern), CandidateRequired(policy, givenRequired);
        && inGap == Count(environments, CandidateGap(matcher, pattern, required))
        && quarantined == PreviewedQuarantine(matcher, View(), pattern, required, now)
        && sample == Capped(NamesOf(environments, CandidateGap(matcher, pattern, required)))
      ensures total == Count(environments, Anyone)
    {
      hide Count, NamesOf, CandidateGap, OldEnough, Cutoff;
      var pattern, required := CandidatePattern(policy, givenPattern), CandidateRequired(policy, givenRequired);
      var cutoff := Cutoff(StoredGrace(policy), now);
      total, inGap, quarantined, sample := Survey(pattern, required, cutoff, StoredFrom(policy, now) <= cutoff);
    }
  }
}
