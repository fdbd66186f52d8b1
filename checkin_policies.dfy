/**
 * Check-in policies: discovery of each team project's compatibility flags and policy
 * descriptors from the server's annotations, and evaluation of the discovered policies
 * against a pending check-in.
 *
 * The server queries and the annotation parsers are not modelled: their results are
 * inputs (`PolicyQueries`). Policy implementations are looked up in a registry given as
 * a function, and each implementation's `loadState` and `evaluate` are functions whose
 * outcome may be a failure or a cancellation.
 */
module CheckinPolicies {
  import opened Wrappers

  type TeamProject = string
  type PolicyTypeId = string
  /** A stateful descriptor's serialised configuration. */
  type Configuration = string
  type FilePath = string

  /** `TfsCheckinPoliciesCompatibility`: which descriptor formats a team project uses, and whether a missing implementation is reported. */
  datatype Compatibility = Compatibility(teamExplorer: bool, teamprise: bool, nonInstalled: bool)

  /** The two descriptor formats: stateless (read by Team Explorer) and stateful (Teamprise). */
  datatype PolicyFormat = TeamExplorerFormat | TeampriseFormat

  predicate FormatEnabled(c: Compatibility, f: PolicyFormat)
  {
    match f
    case TeamExplorerFormat => c.teamExplorer
    case TeampriseFormat => c.teamprise
  }

  /** A policy descriptor as a parser returns it. */
  datatype PolicyDescriptor =
    | Stateless(policyType: PolicyTypeId, enabled: bool)
    | Stateful(policyType: PolicyTypeId, enabled: bool, configuration: Configuration)

  /** `TeamProjectData`: a team project's effective compatibility and its policies. */
  datatype TeamProjectData = TeamProjectData(compatibility: Compatibility, policies: seq<PolicyDescriptor>)

  /** One entry of a server's team-project map, in iteration order. */
  datatype ProjectEntry = ProjectEntry(project: TeamProject, data: TeamProjectData)

  // ---------------------------------------------------------------------------------
  // Discovery
  // ---------------------------------------------------------------------------------

  /**
   * An overrides annotation of a team project. `value` is None when the annotation has
   * no value, else the compatibility it parses to or the parser's error.
   */
  datatype OverrideAnnotation = OverrideAnnotation(project: TeamProject, value: Option<Result<Compatibility, string>>)

  /** A policies annotation of a team project: no value, the descriptors it parses to, or the parser's error. */
  datatype PolicyAnnotation = PolicyAnnotation(project: TeamProject, value: Option<Result<seq<PolicyDescriptor>, string>>)

  /** What the server returns for one server's team projects, or the error each query throws. */
  datatype PolicyQueries = PolicyQueries(
    overrides: Result<seq<OverrideAnnotation>, string>,
    teamExplorerPolicies: Result<seq<PolicyAnnotation>, string>,
    teamprisePolicies: Result<seq<PolicyAnnotation>, string>)

  /** The discovery state: the project map and whether each format is in use anywhere. */
  datatype Discovery = Discovery(projects: map<TeamProject, TeamProjectData>, teamExplorerFound: bool, teampriseFound: bool)

  /**
   * Discovery so far: still running; stopped by a parse error, which is caught and kept
   * as the server's load error; or crashed by an exception that escapes discovery.
   */
  datatype Stage = Running(discovery: Discovery) | Stopped(discovery: Discovery, message: string) | Crashed(message: string)

  /** The message of the null dereference raised for an annotation on an unknown team project. */
  const NullProject: string := "NullPointerException"

  function FoundFlag(d: Discovery, f: PolicyFormat): bool
  {
    match f
    case TeamExplorerFormat => d.teamExplorerFound
    case TeampriseFormat => d.teampriseFound
  }

  /** Every team project starts with the global compatibility and no policies. */
  function InitialDiscovery(projects: seq<TeamProject>, defaults: Compatibility): (d: Discovery)
    ensures d.projects.Keys == set p | p in projects
  {
    Discovery(map p | p in projects :: TeamProjectData(defaults, []), defaults.teamExplorer, defaults.teamprise)
  }

  /** One overrides annotation: its compatibility replaces the project's and widens the found flags. */
  function OverrideStep(s: Stage, a: OverrideAnnotation): Stage
  {
    if !s.Running? || a.value.None? then s
    else match a.value.value
      case Failure(msg) => Stopped(s.discovery, msg)
      case Success(c) =>
        var d := s.discovery;
        if a.project !in d.projects then Crashed(NullProject)
        else Running(Discovery(d.projects[a.project := d.projects[a.project].(compatibility := c)],
                               d.teamExplorerFound || c.teamExplorer, d.teampriseFound || c.teamprise))
  }

  function Overrides(s: Stage, anns: seq<OverrideAnnotation>): Stage
  {
    if anns == [] then s else OverrideStep(Overrides(s, anns[..|anns| - 1]), anns[|anns| - 1])
  }

  /** The enabled descriptors, in order. */
  function Enabled(ds: seq<PolicyDescriptor>): (r: seq<PolicyDescriptor>)
    ensures forall x :: x in r ==> x in ds && x.enabled
  {
    if ds == [] then []
    else Enabled(ds[..|ds| - 1]) + (if ds[|ds| - 1].enabled then [ds[|ds| - 1]] else [])
  }

  /**
   * One policies annotation of format `f`: parsed only when the project uses that format,
   * and then its enabled descriptors are appended to the project's policies.
   */
  function PolicyStep(s: Stage, a: PolicyAnnotation, f: PolicyFormat): Stage
  {
    if !s.Running? || a.value.None? then s
    else
      var d := s.discovery;
      if a.project !in d.projects then Crashed(NullProject)
      else if !FormatEnabled(d.projects[a.project].compatibility, f) then s
      else match a.value.value
        case Failure(msg) => Stopped(d, msg)
        case Success(ds) =>
          var data := d.projects[a.project];
          Running(d.(projects := d.projects[a.project := data.(policies := data.policies + Enabled(ds))]))
  }

  function Policies(s: Stage, anns: seq<PolicyAnnotation>, f: PolicyFormat): Stage
  {
    if anns == [] then s else PolicyStep(Policies(s, anns[..|anns| - 1], f), anns[|anns| - 1], f)
  }

  /** The policies stage of format `f`: queried and run only if some project uses the format. */
  function FormatStage(s: Stage, q: Result<seq<PolicyAnnotation>, string>, f: PolicyFormat): Stage
  {
    if !s.Running? || !FoundFlag(s.discovery, f) then s
    else if q.Failure? then Crashed(q.error)
    else Policies(s, q.value, f)
  }

  /** The policy part of the constructor for one server. */
  function Discover(projects: seq<TeamProject>, defaults: Compatibility, q: PolicyQueries): Stage
  {
    if q.overrides.Failure? then Crashed(q.overrides.error)
    else
      var afterOverrides := Overrides(Running(InitialDiscovery(projects, defaults)), q.overrides.value);
      var afterTeamExplorer := FormatStage(afterOverrides, q.teamExplorerPolicies, TeamExplorerFormat);
      FormatStage(afterTeamExplorer, q.teamprisePolicies, TeampriseFormat)
  }

  /** The enabled descriptors all parsed annotations of `p` contribute, in order. */
  function Collected(anns: seq<PolicyAnnotation>, p: TeamProject): seq<PolicyDescriptor>
  {
    if anns == [] then [] else Collected(anns[..|anns| - 1], p) + Contributed(anns[|anns| - 1], p)
  }

  /** The enabled descriptors one parsed annotation of `p` contributes. */
  function Contributed(a: PolicyAnnotation, p: TeamProject): seq<PolicyDescriptor>
  {
    if a.project == p && a.value.Some? && a.value.value.Success? then Enabled(a.value.value.value) else []
  }

  lemma {:induction false} CollectedEnabled(anns: seq<PolicyAnnotation>, p: TeamProject)
    ensures forall x :: x in Collected(anns, p) ==> x.enabled
  {
    if anns != [] {
      CollectedEnabled(anns[..|anns| - 1], p);
    }
  }

  /**
   * After the overrides stage: the project set is unchanged, no project has policies yet,
   * the found flags only widen, and every project whose effective compatibility uses a
   * format has that format marked as found.
   */
  lemma {:induction false} OverridesShape(s: Stage, anns: seq<OverrideAnnotation>)
    requires s.Running?
    requires forall p :: p in s.discovery.projects ==> s.discovery.projects[p].policies == []
    requires forall p, f :: p in s.discovery.projects && FormatEnabled(s.discovery.projects[p].compatibility, f) ==> FoundFlag(s.discovery, f)
    ensures var r := Overrides(s, anns);
      !r.Crashed? ==>
        && r.discovery.projects.Keys == s.discovery.projects.Keys
        && (forall p :: p in r.discovery.projects ==> r.discovery.projects[p].policies == [])
        && (forall f :: FoundFlag(s.discovery, f) ==> FoundFlag(r.discovery, f))
        && (forall p, f :: p in r.discovery.projects && FormatEnabled(r.discovery.projects[p].compatibility, f) ==> FoundFlag(r.discovery, f))
  {
    if anns != [] {
      var init := anns[..|anns| - 1];
      var a := anns[|anns| - 1];
      OverridesShape(s, init);
      var prev := Overrides(s, init);
      var r := Overrides(s, anns);
      if prev.Running? && r.Running? {
        forall p, f | p in r.discovery.projects && FormatEnabled(r.discovery.projects[p].compatibility, f)
          ensures FoundFlag(r.discovery, f)
        {
          if a.value.Some? && a.value.value.Success? && p == a.project {
            var c := a.value.value.value;
            assert r.discovery.projects[p].compatibility == c;
            assert r.discovery.teamExplorerFound == (prev.discovery.teamExplorerFound || c.teamExplorer);
            assert r.discovery.teampriseFound == (prev.discovery.teampriseFound || c.teamprise);
          } else {
            assert r.discovery.projects[p] == prev.discovery.projects[p];
            assert FoundFlag(prev.discovery, f);
          }
        }
      }
    }
  }

  /** The effect of one policies annotation on one project. */
  lemma PolicyStepEffect(s: Stage, a: PolicyAnnotation, f: PolicyFormat, p: TeamProject)
    requires s.Running? && p in s.discovery.projects
    ensures var r := PolicyStep(s, a, f);
      var before := s.discovery.projects[p];
      && (r.Stopped? ==> r.discovery == s.discovery)
      && (r.Running? ==>
        && r.discovery.projects.Keys == s.discovery.projects.Keys
        && r.discovery.teamExplorerFound == s.discovery.teamExplorerFound
        && r.discovery.teampriseFound == s.discovery.teampriseFound
        && r.discovery.projects[p] == before.(policies := before.policies
             + (if a.project == p && a.value.Some? && a.value.value.Success? && FormatEnabled(before.compatibility, f)
                then Enabled(a.value.value.value) else [])))
  {
  }

  /**
   * When a policies stage runs to the end, it has appended to each project exactly the
   * enabled descriptors of that project's annotations, if the project uses the format,
   * and nothing otherwise; nothing else about the project changes.
   */
  lemma {:induction false} PoliciesComplete(s: Stage, anns: seq<PolicyAnnotation>, f: PolicyFormat, p: TeamProject)
    requires s.Running? && p in s.discovery.projects
    ensures var r := Policies(s, anns, f);
      var before := s.discovery.projects[p];
      r.Running? ==>
        && r.discovery.projects.Keys == s.discovery.projects.Keys
        && r.discovery.teamExplorerFound == s.discovery.teamExplorerFound
        && r.discovery.teampriseFound == s.discovery.teampriseFound
        && r.discovery.projects[p] == before.(policies := before.policies
             + (if FormatEnabled(before.compatibility, f) then Collected(anns, p) else []))
  {
    if anns != [] {
      var init := anns[..|anns| - 1];
      PoliciesComplete(s, init, f, p);
      var prev := Policies(s, init, f);
      if prev.Running? {
        PoliciesCompleteStep(prev, anns[|anns| - 1], f, p, s.discovery.projects[p], Collected(init, p));
      }
    } else {
      var before := s.discovery.projects[p];
      assert before.policies + [] == before.policies;
    }
  }

  /** One step of `PoliciesComplete`: the next annotation extends what was collected so far. */
  lemma PoliciesCompleteStep(prev: Stage, a: PolicyAnnotation, f: PolicyFormat, p: TeamProject, before: TeamProjectData, collected: seq<PolicyDescriptor>)
    requires prev.Running? && p in prev.discovery.projects
    requires prev.discovery.projects[p]
      == before.(policies := before.policies + (if FormatEnabled(before.compatibility, f) then collected else []))
    ensures var r := PolicyStep(prev, a, f);
      r.Running? ==>
        && r.discovery.projects.Keys == prev.discovery.projects.Keys
        && r.discovery.teamExplorerFound == prev.discovery.teamExplorerFound
        && r.discovery.teampriseFound == prev.discovery.teampriseFound
        && r.discovery.projects[p]
           == before.(policies := before.policies + (if FormatEnabled(before.compatibility, f) then collected + Contributed(a, p) else []))
  {
    PolicyStepEffect(prev, a, f, p);
    if FormatEnabled(before.compatibility, f) {
      assert (before.policies + collected) + Contributed(a, p) == before.policies + (collected + Contributed(a, p));
    } else {
      assert before.policies + [] == before.policies;
    }
  }

  /**
   * Whatever way a policies stage ends short of a crash, it only ever adds, to a project
   * using the format, enabled descriptors of that project's own annotations.
   */
  lemma {:induction false} PoliciesSound(s: Stage, anns: seq<PolicyAnnotation>, f: PolicyFormat, p: TeamProject)
    requires s.Running? && p in s.discovery.projects
    ensures var r := Policies(s, anns, f);
      var before := s.discovery.projects[p];
      !r.Crashed? ==>
        && r.discovery.projects.Keys == s.discovery.projects.Keys
        && r.discovery.teamExplorerFound == s.discovery.teamExplorerFound
        && r.discovery.teampriseFound == s.discovery.teampriseFound
        && r.discovery.projects[p].compatibility == before.compatibility
        && before.policies <= r.discovery.projects[p].policies
        && forall x :: x in r.discovery.projects[p].policies[|before.policies|..] ==>
             FormatEnabled(before.compatibility, f) && x in Collected(anns, p) && x.enabled
  {
    CollectedEnabled(anns, p);
    if anns != [] {
      var init := anns[..|anns| - 1];
      PoliciesSound(s, init, f, p);
      var prev := Policies(s, init, f);
      var r := Policies(s, anns, f);
      if !r.Crashed? && prev.Running? {
        var a := anns[|anns| - 1];
        PolicyStepEffect(prev, a, f, p);
        if r.Running? {
          var before := s.discovery.projects[p];
          var old_ := prev.discovery.projects[p].policies;
          var new_ := r.discovery.projects[p].policies;
          var added := new_[|old_|..];
          assert new_ == old_ + added;
          assert new_[|before.policies|..] == old_[|before.policies|..] + added;
        }
      }
    }
  }

  /** Once a stage has stopped or crashed, the remaining overrides annotations change nothing. */
  lemma {:induction false} OverridesIdle(s: Stage, anns: seq<OverrideAnnotation>, j: nat)
    requires j <= |anns| && !Overrides(s, anns[..j]).Running?
    ensures Overrides(s, anns) == Overrides(s, anns[..j])
  {
    if j < |anns| {
      assert anns[..|anns| - 1][..j] == anns[..j];
      OverridesIdle(s, anns[..|anns| - 1], j);
    } else {
      assert anns[..j] == anns;
    }
  }

  /** Once a stage has stopped or crashed, the remaining policies annotations change nothing. */
  lemma {:induction false} PoliciesIdle(s: Stage, anns: seq<PolicyAnnotation>, f: PolicyFormat, j: nat)
    requires j <= |anns| && !Policies(s, anns[..j], f).Running?
    ensures Policies(s, anns, f) == Policies(s, anns[..j], f)
  {
    if j < |anns| {
      assert anns[..|anns| - 1][..j] == anns[..j];
      PoliciesIdle(s, anns[..|anns| - 1], f, j);
    } else {
      assert anns[..j] == anns;
    }
  }

  /** Appends the enabled descriptors of `ds` to `policies`, one at a time. */
  method AddEnabled(policies: seq<PolicyDescriptor>, ds: seq<PolicyDescriptor>) returns (r: seq<PolicyDescriptor>)
    ensures r == policies + Enabled(ds)
  {
    r := policies;
    var k := 0;
    while k < |ds|
      invariant 0 <= k <= |ds|
      invariant r == policies + Enabled(ds[..k])
    {
      assert ds[..k + 1][..k] == ds[..k];
      if ds[k].enabled {
        r := r + [ds[k]];
      }
      k := k + 1;
    }
    assert ds[..k] == ds;
  }

  /** Reads the policies annotations of one format into the project map. */
  method ApplyPolicyAnnotations(d: Discovery, anns: seq<PolicyAnnotation>, f: PolicyFormat) returns (s: Stage)
    ensures s == Policies(Running(d), anns, f)
  {
    var projects := d.projects;
    var i := 0;
    while i < |anns|
      invariant 0 <= i <= |anns|
      invariant Policies(Running(d), anns[..i], f) == Running(d.(projects := projects))
    {
      assert anns[..i + 1][..i] == anns[..i];
      var a := anns[i];
      if a.value.Some? {
        if a.project !in projects {
          s := Crashed(NullProject);
          PoliciesIdle(Running(d), anns, f, i + 1);
          return;
        }
        var data := projects[a.project];
        if FormatEnabled(data.compatibility, f) {
          match a.value.value
          case Failure(msg) =>
            s := Stopped(d.(projects := projects), msg);
            PoliciesIdle(Running(d), anns, f, i + 1);
            return;
          case Success(ds) =>
            var policies := AddEnabled(data.policies, ds);
            projects := projects[a.project := data.(policies := policies)];
        }
      }
      i := i + 1;
    }
    assert anns[..i] == anns;
    s := Running(d.(projects := projects));
  }

  /** Discovery for one server, in the order the constructor performs it. */
  method DiscoverPolicies(projects: seq<TeamProject>, defaults: Compatibility, q: PolicyQueries) returns (s: Stage)
    ensures s == Discover(projects, defaults, q)
  {
    if q.overrides.Failure? {
      return Crashed(q.overrides.error);
    }
    var d0 := InitialDiscovery(projects, defaults);
    var data := d0.projects;
    var teamExplorerFound := defaults.teamExplorer;
    var teampriseFound := defaults.teamprise;
    var anns := q.overrides.value;
    var i := 0;
    while i < |anns|
      invariant 0 <= i <= |anns|
      invariant Overrides(Running(d0), anns[..i]) == Running(Discovery(data, teamExplorerFound, teampriseFound))
    {
      assert anns[..i + 1][..i] == anns[..i];
      var a := anns[i];
      if a.value.Some? {
        match a.value.value
        case Failure(msg) =>
          s := Stopped(Discovery(data, teamExplorerFound, teampriseFound), msg);
          OverridesIdle(Running(d0), anns, i + 1);
          return;
        case Success(c) =>
          if a.project !in data {
            s := Crashed(NullProject);
            OverridesIdle(Running(d0), anns, i + 1);
            return;
          }
          data := data[a.project := data[a.project].(compatibility := c)];
          teamExplorerFound := teamExplorerFound || c.teamExplorer;
          teampriseFound := teampriseFound || c.teamprise;
      }
      i := i + 1;
    }
    assert anns[..i] == anns;
    s := Running(Discovery(data, teamExplorerFound, teampriseFound));
    if teamExplorerFound {
      if q.teamExplorerPolicies.Failure? {
        return Crashed(q.teamExplorerPolicies.error);
      }
      s := ApplyPolicyAnnotations(s.discovery, q.teamExplorerPolicies.value, TeamExplorerFormat);
      if !s.Running? {
        return;
      }
    }
    if s.discovery.teampriseFound {
      if q.teamprisePolicies.Failure? {
        return Crashed(q.teamprisePolicies.error);
      }
      s := ApplyPolicyAnnotations(s.discovery, q.teamprisePolicies.value, TeampriseFormat);
    }
  }

  /** The annotations a query returned, or none if it failed or was never made. */
  function Returned(q: Result<seq<PolicyAnnotation>, string>): seq<PolicyAnnotation>
  {
    if q.Success? then q.value else []
  }

  /** A format stage that completes adds a covered project's annotations of that format, if it uses the format. */
  lemma FormatStageComplete(s: Stage, q: Result<seq<PolicyAnnotation>, string>, f: PolicyFormat, p: TeamProject)
    requires s.Running? && p in s.discovery.projects
    requires FormatEnabled(s.discovery.projects[p].compatibility, f) ==> FoundFlag(s.discovery, f)
    ensures var r := FormatStage(s, q, f);
      var before := s.discovery.projects[p];
      r.Running? ==>
        && r.discovery.projects.Keys == s.discovery.projects.Keys
        && r.discovery.teamExplorerFound == s.discovery.teamExplorerFound
        && r.discovery.teampriseFound == s.discovery.teampriseFound
        && r.discovery.projects[p] == before.(policies := before.policies
             + (if FormatEnabled(before.compatibility, f) then Collected(Returned(q), p) else []))
  {
    if FoundFlag(s.discovery, f) && q.Success? {
      PoliciesComplete(s, q.value, f, p);
    }
  }

  /**
   * When discovery for a server completes, each of its team projects holds exactly the
   * enabled descriptors of its own annotations of each format its final compatibility
   * uses, stateless ones first.
   */
  lemma DiscoveryComplete(projects: seq<TeamProject>, defaults: Compatibility, q: PolicyQueries, p: TeamProject)
    requires p in projects
    ensures var r := Discover(projects, defaults, q);
      r.Running? ==>
        && (forall t :: t in r.discovery.projects <==> t in projects)
        && var c := r.discovery.projects[p].compatibility;
           r.discovery.projects[p].policies
             == (if c.teamExplorer then Collected(Returned(q.teamExplorerPolicies), p) else [])
              + (if c.teamprise then Collected(Returned(q.teamprisePolicies), p) else [])
  {
    var r := Discover(projects, defaults, q);
    if r.Running? {
      assert q.overrides.Success?;
      var s0 := Running(InitialDiscovery(projects, defaults));
      var s1 := Overrides(s0, q.overrides.value);
      OverridesShape(s0, q.overrides.value);
      var s2 := FormatStage(s1, q.teamExplorerPolicies, TeamExplorerFormat);
      assert r == FormatStage(s2, q.teamprisePolicies, TeampriseFormat);
      assert s1.Running? && s2.Running?;
      var c := s1.discovery.projects[p].compatibility;
      var te := if c.teamExplorer then Collected(Returned(q.teamExplorerPolicies), p) else [];
      var tp := if c.teamprise then Collected(Returned(q.teamprisePolicies), p) else [];
      assert s1.discovery.projects[p].policies == [];
      FormatStageComplete(s1, q.teamExplorerPolicies, TeamExplorerFormat, p);
      assert s2.discovery.projects[p] == s1.discovery.projects[p].(policies := [] + te);
      assert FormatEnabled(c, TeampriseFormat) ==> FoundFlag(s1.discovery, TeampriseFormat);
      FormatStageComplete(s2, q.teamprisePolicies, TeampriseFormat, p);
      assert r.discovery.projects[p].policies == ([] + te) + tp;
      assert [] + te == te;
    }
  }

  /**
   * Whether discovery completes or stops at a parse error, every descriptor a team
   * project holds is enabled and comes from that project's own annotations of a format
   * its compatibility uses.
   */
  lemma DiscoverySound(projects: seq<TeamProject>, defaults: Compatibility, q: PolicyQueries, p: TeamProject)
    requires p in projects
    ensures var r := Discover(projects, defaults, q);
      !r.Crashed? ==>
        && p in r.discovery.projects
        && var c := r.discovery.projects[p].compatibility;
           forall x :: x in r.discovery.projects[p].policies ==>
             && x.enabled
             && ((c.teamExplorer && x in Collected(Returned(q.teamExplorerPolicies), p))
                 || (c.teamprise && x in Collected(Returned(q.teamprisePolicies), p)))
  {
    var r := Discover(projects, defaults, q);
    if !r.Crashed? {
      var s0 := Running(InitialDiscovery(projects, defaults));
      var s1 := Overrides(s0, q.overrides.value);
      OverridesShape(s0, q.overrides.value);
      var s2 := FormatStage(s1, q.teamExplorerPolicies, TeamExplorerFormat);
      if s1.Running? && FoundFlag(s1.discovery, TeamExplorerFormat) {
        PoliciesSound(s1, q.teamExplorerPolicies.value, TeamExplorerFormat, p);
        assert s1.discovery.projects[p].policies == [];
      }
      if s2.Running? && FoundFlag(s2.discovery, TeampriseFormat) {
        PoliciesSound(s2, q.teamprisePolicies.value, TeampriseFormat, p);
        var mid := s2.discovery.projects[p].policies;
        var fin := r.discovery.projects[p].policies;
        assert fin == mid + fin[|mid|..];
      }
    }
  }

  /** Discovery that does not crash keeps an entry for every team project of the server. */
  lemma DiscoveryKeepsProjects(projects: seq<TeamProject>, defaults: Compatibility, q: PolicyQueries)
    ensures var r := Discover(projects, defaults, q);
      !r.Crashed? ==> forall p :: p in projects ==> p in r.discovery.projects
  {
    forall p | p in projects
      ensures var r := Discover(projects, defaults, q); !r.Crashed? ==> p in r.discovery.projects
    {
      DiscoverySound(projects, defaults, q, p);
    }
  }

  // ---------------------------------------------------------------------------------
  // Evaluation
  // ---------------------------------------------------------------------------------

  /** `PolicyContext`: what a policy sees of the pending check-in. */
  datatype PolicyContext = PolicyContext(files: seq<FilePath>, commitMessage: string)

  /** A failure a policy implementation reports about the check-in. */
  datatype PolicyReport = PolicyReport(policyName: string, message: string)

  /** The outcome of `loadState` and of `evaluate`: normal, a runtime exception, or a cancellation. */
  datatype LoadOutcome = Loaded | LoadFailed(error: string) | LoadCancelled
  datatype EvalOutcome = Evaluated(reports: seq<PolicyReport>) | EvalFailed(error: string) | EvalCancelled

  /**
   * A policy implementation. `evaluate` receives the configuration just loaded from a
   * stateful descriptor, or None for a stateless one.
   */
  datatype PolicyPlugin = PolicyPlugin(
    name: string,
    loadState: Configuration -> LoadOutcome,
    evaluate: (Option<Configuration>, PolicyContext) -> EvalOutcome)

  /** What `CheckinPoliciesManager.find` does for a policy type: one implementation, none, or a duplicate-id exception. */
  datatype Lookup = Found(plugin: PolicyPlugin) | NotFound | DuplicateId(duplicateId: PolicyTypeId)

  type PolicyRegistry = PolicyTypeId -> Lookup

  /** The failures evaluation records, by kind. */
  datatype PolicyFailure =
    | Reported(report: PolicyReport)
    | DuplicatePolicy(duplicateId: PolicyTypeId)
    | NotInstalled(policyType: PolicyTypeId, stateless: bool)
    | CannotLoad(policyName: string, error: string)
    | CannotEvaluate(policyName: string, error: string)

  /** The name of the placeholder policy the evaluator's own failures are filed under. */
  const DummyPolicyName: string := "<dummy policy>"

  /** `PolicyFailure.getPolicyName`. */
  function FailurePolicyName(f: PolicyFailure): string
  {
    match f
    case Reported(r) => r.policyName
    case NotInstalled(t, _) => t
    case _ => DummyPolicyName
  }

  /** What one descriptor does to the evaluation of its team project. */
  datatype Step = Continue(failures: seq<PolicyFailure>) | Break(failure: PolicyFailure) | Cancel

  function Reports(rs: seq<PolicyReport>): (fs: seq<PolicyFailure>)
    ensures |fs| == |rs| && forall k :: 0 <= k < |rs| ==> fs[k] == Reported(rs[k])
  {
    seq(|rs|, k requires 0 <= k < |rs| => Reported(rs[k]))
  }

  /** The configuration `evaluate` receives: the one just loaded for a stateful descriptor, none for a stateless one. */
  function ConfigOf(d: PolicyDescriptor): Option<Configuration>
  {
    if d.Stateful? then Some(d.configuration) else None
  }

  /** The descriptor's state is ready for evaluation: it is stateless, or its configuration loaded. */
  predicate StateLoaded(plugin: PolicyPlugin, d: PolicyDescriptor)
  {
    d.Stateless? || plugin.loadState(d.configuration).Loaded?
  }

  /**
   * The decision for one descriptor: a duplicate id stops the project; a missing
   * implementation is reported only if the project asks for it; a stateful policy whose
   * configuration fails to load is not evaluated; an evaluation that throws is reported
   * as such; a cancellation aborts everything.
   */
  function DescriptorStep(d: PolicyDescriptor, nonInstalled: bool, find: PolicyRegistry, ctx: PolicyContext): (r: Step)
    ensures r.Break? <==> find(d.policyType).DuplicateId?
    ensures r.Break? ==> r.failure == DuplicatePolicy(find(d.policyType).duplicateId)
    ensures r.Cancel? ==> find(d.policyType).Found?
    ensures find(d.policyType).NotFound? ==>
      r == Continue(if nonInstalled then [NotInstalled(d.policyType, d.Stateless?)] else [])
    ensures r.Continue? ==> forall f :: f in r.failures ==> !f.DuplicatePolicy?
    ensures r.Continue? && !find(d.policyType).NotFound? ==> forall f :: f in r.failures ==> !f.NotInstalled?
    ensures (find(d.policyType).Found? && d.Stateful? && find(d.policyType).plugin.loadState(d.configuration).LoadFailed?) ==>
      r == Continue([CannotLoad(find(d.policyType).plugin.name, find(d.policyType).plugin.loadState(d.configuration).error)])
    ensures (find(d.policyType).Found? && d.Stateful? && find(d.policyType).plugin.loadState(d.configuration).LoadCancelled?) ==>
      r == Cancel
    ensures find(d.policyType).Found? && StateLoaded(find(d.policyType).plugin, d) ==>
      var plugin := find(d.policyType).plugin;
      match plugin.evaluate(ConfigOf(d), ctx)
      case EvalCancelled => r == Cancel
      case EvalFailed(e) => r == Continue([CannotEvaluate(plugin.name, e)])
      case Evaluated(rs) => r == Continue(Reports(rs))
  {
    match find(d.policyType)
    case DuplicateId(id) => Break(DuplicatePolicy(id))
    case NotFound => Continue(if nonInstalled then [NotInstalled(d.policyType, d.Stateless?)] else [])
    case Found(plugin) =>
      var loaded := if d.Stateful? then plugin.loadState(d.configuration) else Loaded;
      match loaded
      case LoadCancelled => Cancel
      case LoadFailed(e) => Continue([CannotLoad(plugin.name, e)])
      case Loaded =>
        match plugin.evaluate(ConfigOf(d), ctx)
        case EvalCancelled => Cancel
        case EvalFailed(e) => Continue([CannotEvaluate(plugin.name, e)])
        case Evaluated(rs) => Continue(Reports(rs))
  }

  /** `xs` in front of a result, unless the evaluation was cancelled. */
  function Prepend(xs: seq<PolicyFailure>, o: Option<seq<PolicyFailure>>): Option<seq<PolicyFailure>>
  {
    if o.None? then None else Some(xs + o.value)
  }

  /** The failures of one team project's descriptors, or None if evaluation was cancelled. */
  function ProjectFailures(ds: seq<PolicyDescriptor>, nonInstalled: bool, find: PolicyRegistry, ctx: PolicyContext): Option<seq<PolicyFailure>>
    decreases |ds|
  {
    if ds == [] then Some([])
    else match DescriptorStep(ds[0], nonInstalled, find, ctx)
      case Cancel => None
      case Break(f) => Some([f])
      case Continue(fs) => Prepend(fs, ProjectFailures(ds[1..], nonInstalled, find, ctx))
  }

  /** The failures of a server's team projects, in order, or None if evaluation was cancelled. */
  function ServerFailures(entries: seq<ProjectEntry>, find: PolicyRegistry, ctx: PolicyContext): Option<seq<PolicyFailure>>
    decreases |entries|
  {
    if entries == [] then Some([])
    else
      var e := entries[0];
      var own := ProjectFailures(e.data.policies, e.data.compatibility.nonInstalled, find, ctx);
      if own.None? then None else Prepend(own.value, ServerFailures(entries[1..], find, ctx))
  }

  /** The failures of descriptors that all continue, in order. */
  function Continued(ds: seq<PolicyDescriptor>, nonInstalled: bool, find: PolicyRegistry, ctx: PolicyContext): seq<PolicyFailure>
    decreases |ds|
  {
    if ds == [] then []
    else
      var st := DescriptorStep(ds[0], nonInstalled, find, ctx);
      (if st.Continue? then st.failures else []) + Continued(ds[1..], nonInstalled, find, ctx)
  }

  /**
   * A duplicate policy id adds exactly one failure, last, and the project's remaining
   * descriptors are not looked at.
   */
  lemma {:induction false} DuplicateIdStopsProject(ds: seq<PolicyDescriptor>, i: nat, nonInstalled: bool, find: PolicyRegistry, ctx: PolicyContext)
    requires i < |ds| && find(ds[i].policyType).DuplicateId?
    requires forall j :: 0 <= j < i ==> DescriptorStep(ds[j], nonInstalled, find, ctx).Continue?
    ensures ProjectFailures(ds, nonInstalled, find, ctx)
      == Some(Continued(ds[..i], nonInstalled, find, ctx) + [DuplicatePolicy(find(ds[i].policyType).duplicateId)])
    ensures forall f :: f in Continued(ds[..i], nonInstalled, find, ctx) ==> !f.DuplicatePolicy?
  {
    if i > 0 {
      assert ds[1..][..i - 1] == ds[..i][1..];
      DuplicateIdStopsProject(ds[1..], i - 1, nonInstalled, find, ctx);
      var fs0 := DescriptorStep(ds[0], nonInstalled, find, ctx).failures;
      var later := Continued(ds[1..][..i - 1], nonInstalled, find, ctx);
      var f := DuplicatePolicy(find(ds[i].policyType).duplicateId);
      assert ds[..i][0] == ds[0];
      assert Continued(ds[..i], nonInstalled, find, ctx) == fs0 + later;
      assert ProjectFailures(ds, nonInstalled, find, ctx) == Some(fs0 + (later + [f]));
      assert fs0 + (later + [f]) == (fs0 + later) + [f];
    } else {
      assert ds[..i] == [];
      assert Continued(ds[..i], nonInstalled, find, ctx) == [];
      var f := DuplicatePolicy(find(ds[0].policyType).duplicateId);
      assert DescriptorStep(ds[0], nonInstalled, find, ctx) == Break(f);
      assert ProjectFailures(ds, nonInstalled, find, ctx) == Some([f]);
      assert [] + [f] == [f];
    }
  }

  /** Without the non-installed flag, a missing implementation never produces a failure. */
  lemma {:induction false} NoNotInstalledUnlessWarned(ds: seq<PolicyDescriptor>, find: PolicyRegistry, ctx: PolicyContext)
    ensures var r := ProjectFailures(ds, false, find, ctx);
      r.Some? ==> forall f :: f in r.value ==> !f.NotInstalled?
  {
    if ds != [] {
      NoNotInstalledUnlessWarned(ds[1..], find, ctx);
    }
  }

  /**
   * With the non-installed flag, a descriptor without an implementation that evaluation
   * reaches is reported as not installed, with its type and whether it is stateless.
   */
  lemma {:induction false} NotInstalledReported(ds: seq<PolicyDescriptor>, i: nat, find: PolicyRegistry, ctx: PolicyContext)
    requires i < |ds| && find(ds[i].policyType).NotFound?
    requires forall j :: 0 <= j < i ==> DescriptorStep(ds[j], true, find, ctx).Continue?
    ensures var r := ProjectFailures(ds, true, find, ctx);
      r.Some? ==> NotInstalled(ds[i].policyType, ds[i].Stateless?) in r.value
  {
    if i > 0 {
      assert DescriptorStep(ds[0], true, find, ctx).Continue?;
      NotInstalledReported(ds[1..], i - 1, find, ctx);
    }
  }

  /** A cancellation reached during a project aborts the evaluation of the whole server. */
  lemma {:induction false} CancellationAborts(entries: seq<ProjectEntry>, k: nat, i: nat, find: PolicyRegistry, ctx: PolicyContext)
    requires k < |entries|
    requires forall m :: 0 <= m < k ==> ProjectFailures(entries[m].data.policies, entries[m].data.compatibility.nonInstalled, find, ctx).Some?
    requires var e := entries[k].data;
      && i < |e.policies|
      && DescriptorStep(e.policies[i], e.compatibility.nonInstalled, find, ctx).Cancel?
      && forall j :: 0 <= j < i ==> DescriptorStep(e.policies[j], e.compatibility.nonInstalled, find, ctx).Continue?
    ensures ServerFailures(entries, find, ctx).None?
  {
    if k > 0 {
      assert ProjectFailures(entries[0].data.policies, entries[0].data.compatibility.nonInstalled, find, ctx).Some?;
      CancellationAborts(entries[1..], k - 1, i, find, ctx);
    } else {
      var e := entries[0].data;
      ProjectCancelled(e.policies, i, e.compatibility.nonInstalled, find, ctx);
    }
  }

  lemma {:induction false} ProjectCancelled(ds: seq<PolicyDescriptor>, i: nat, nonInstalled: bool, find: PolicyRegistry, ctx: PolicyContext)
    requires i < |ds| && DescriptorStep(ds[i], nonInstalled, find, ctx).Cancel?
    requires forall j :: 0 <= j < i ==> DescriptorStep(ds[j], nonInstalled, find, ctx).Continue?
    ensures ProjectFailures(ds, nonInstalled, find, ctx).None?
  {
    if i > 0 {
      assert DescriptorStep(ds[0], nonInstalled, find, ctx).Continue?;
      ProjectCancelled(ds[1..], i - 1, nonInstalled, find, ctx);
    }
  }

  lemma PrependAppend(a: seq<PolicyFailure>, b: seq<PolicyFailure>, o: Option<seq<PolicyFailure>>)
    ensures Prepend(a, Prepend(b, o)) == Prepend(a + b, o)
    ensures Prepend([], o) == o
  {
    if o.Some? {
      assert a + (b + o.value) == (a + b) + o.value;
      assert [] + o.value == o.value;
    }
  }

  lemma ProjectFailuresFrom(ds: seq<PolicyDescriptor>, j: nat, nonInstalled: bool, find: PolicyRegistry, ctx: PolicyContext)
    requires j < |ds|
    ensures ProjectFailures(ds[j..], nonInstalled, find, ctx)
      == match DescriptorStep(ds[j], nonInstalled, find, ctx)
         case Cancel => None
         case Break(f) => Some([f])
         case Continue(fs) => Prepend(fs, ProjectFailures(ds[j + 1..], nonInstalled, find, ctx))
  {
    assert ds[j..][1..] == ds[j + 1..];
  }

  lemma ServerFailuresFrom(entries: seq<ProjectEntry>, i: nat, find: PolicyRegistry, ctx: PolicyContext)
    requires i < |entries|
    ensures var e := entries[i].data;
      var own := ProjectFailures(e.policies, e.compatibility.nonInstalled, find, ctx);
      ServerFailures(entries[i..], find, ctx)
        == if own.None? then None else Prepend(own.value, ServerFailures(entries[i + 1..], find, ctx))
  {
    assert entries[i..][1..] == entries[i + 1..];
  }

  /**
   * The evaluation loop for one server: every team project's descriptors in order, a
   * duplicate id breaking out of the project, a cancellation out of everything.
   */
  method EvaluateServer(entries: seq<ProjectEntry>, find: PolicyRegistry, ctx: PolicyContext) returns (r: Option<seq<PolicyFailure>>)
    ensures r == ServerFailures(entries, find, ctx)
  {
    var all: seq<PolicyFailure> := [];
    var i := 0;
    assert entries[i..] == entries;
    PrependAppend([], [], ServerFailures(entries, find, ctx));
    while i < |entries|
      invariant 0 <= i <= |entries|
      invariant ServerFailures(entries, find, ctx) == Prepend(all, ServerFailures(entries[i..], find, ctx))
    {
      var data := entries[i].data;
      var ds := data.policies;
      ghost var start := all;
      var j := 0;
      PrependAppend([], [], ProjectFailures(ds, data.compatibility.nonInstalled, find, ctx));
      while j < |ds|
        invariant 0 <= j <= |ds|
        invariant start <= all
        invariant Prepend(start, ProjectFailures(ds, data.compatibility.nonInstalled, find, ctx))
               == Prepend(all, ProjectFailures(ds[j..], data.compatibility.nonInstalled, find, ctx))
      {
        ProjectFailuresFrom(ds, j, data.compatibility.nonInstalled, find, ctx);
        ghost var rest := ProjectFailures(ds[j + 1..], data.compatibility.nonInstalled, find, ctx);
        ghost var before := all;
        var lookup := find(ds[j].policyType);
        if lookup.DuplicateId? {
          all := all + [DuplicatePolicy(lookup.duplicateId)];
          assert Prepend(start, ProjectFailures(ds, data.compatibility.nonInstalled, find, ctx)) == Some(all);
          break;
        }
        if lookup.NotFound? {
          if data.compatibility.nonInstalled {
            all := all + [NotInstalled(ds[j].policyType, ds[j].Stateless?)];
          }
          PrependAppend(before, all[|before|..], rest);
          j := j + 1;
          continue;
        }
        var plugin := lookup.plugin;
        if ds[j].Stateful? {
          var loaded := plugin.loadState(ds[j].configuration);
          if loaded.LoadCancelled? {
            return None;
          }
          if loaded.LoadFailed? {
            all := all + [CannotLoad(plugin.name, loaded.error)];
            PrependAppend(before, [CannotLoad(plugin.name, loaded.error)], rest);
            j := j + 1;
            continue;
          }
        }
        var config := if ds[j].Stateful? then Some(ds[j].configuration) else None;
        var outcome := plugin.evaluate(config, ctx);
        match outcome {
          case EvalCancelled =>
            return None;
          case EvalFailed(e) =>
            all := all + [CannotEvaluate(plugin.name, e)];
            PrependAppend(before, [CannotEvaluate(plugin.name, e)], rest);
          case Evaluated(rs) =>
            all := all + Reports(rs);
            PrependAppend(before, Reports(rs), rest);
        }
        j := j + 1;
      }
      if j == |ds| {
        assert ds[j..] == [];
        assert all + [] == all;
      }
      assert Prepend(start, ProjectFailures(ds, data.compatibility.nonInstalled, find, ctx)) == Some(all);
      assert all == start + all[|start|..];
      assert ProjectFailures(ds, data.compatibility.nonInstalled, find, ctx) == Some(all[|start|..]);
      ServerFailuresFrom(entries, i, find, ctx);
      PrependAppend(start, all[|start|..], ServerFailures(entries[i + 1..], find, ctx));
      i := i + 1;
    }
    assert entries[i..] == [];
    assert all + [] == all;
    r := Some(all);
  }
}
