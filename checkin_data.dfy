/**
 * The per-server state of a check-in (`ServerData`) and the specifications of the
 * read-only queries over it: whether policies apply at all, the failure lists, the
 * validation message and the override map.
 */
module CheckinData {
  import opened Wrappers
  import opened CheckinNotes
  import opened CheckinPolicies

  type ServerUri = string

  /**
   * `ServerData`: the server's note objects, the files checked in to it, its team
   * projects in iteration order, the failures of the last evaluation (None until
   * policies are evaluated) and the names of required notes found empty.
   */
  datatype ServerData = ServerData(
    notes: seq<CheckinNote>,
    files: seq<FilePath>,
    policies: seq<ProjectEntry>,
    failures: Option<seq<PolicyFailure>>,
    emptyNotes: seq<string>)

  /** One entry of the server map, which iterates in insertion order. */
  datatype ServerEntry = ServerEntry(server: ServerUri, data: ServerData)

  predicate DistinctServers(es: seq<ServerEntry>)
  {
    forall i, j :: 0 <= i < j < |es| ==> es[i].server != es[j].server
  }

  predicate Listed(es: seq<ServerEntry>, s: ServerUri)
  {
    exists i :: 0 <= i < |es| && es[i].server == s
  }

  /** The data stored for server `s`. */
  function DataOf(es: seq<ServerEntry>, s: ServerUri): (d: ServerData)
    requires Listed(es, s)
    ensures exists i :: 0 <= i < |es| && es[i].server == s && es[i].data == d
    ensures DistinctServers(es) ==> forall i :: 0 <= i < |es| && es[i].server == s ==> es[i].data == d
  {
    if es[0].server == s then es[0].data
    else
      assert Listed(es[1..], s) by {
        var i :| 0 <= i < |es| && es[i].server == s;
        assert es[1..][i - 1] == es[i];
      }
      DataOf(es[1..], s)
  }

  /** `createPolicyContext`: a policy sees the server's files and the commit message. */
  function ContextOf(d: ServerData, commitMessage: string): (ctx: PolicyContext)
    ensures ctx.files == d.files && ctx.commitMessage == commitMessage
  {
    PolicyContext(d.files, commitMessage)
  }

  // ---------------------------------------------------------------------------------
  // Whether policies apply
  // ---------------------------------------------------------------------------------

  /** A team project takes part in policy evaluation if it uses either descriptor format. */
  predicate UsesPolicies(c: Compatibility)
  {
    c.teamExplorer || c.teamprise
  }

  predicate ServerUsesPolicies(d: ServerData)
  {
    exists k :: 0 <= k < |d.policies| && UsesPolicies(d.policies[k].data.compatibility)
  }

  /** `evaluationEnabled`: some team project of some server uses policies. */
  predicate EvaluationEnabled(es: seq<ServerEntry>)
  {
    exists i :: 0 <= i < |es| && ServerUsesPolicies(es[i].data)
  }

  /** `hasPolicyFailures`: the server uses policies and they are either not evaluated yet or failed. */
  predicate HasPolicyFailures(d: ServerData, evaluated: bool)
  {
    ServerUsesPolicies(d) && (!evaluated || (d.failures.Some? && |d.failures.value| > 0))
  }

  // ---------------------------------------------------------------------------------
  // Failures
  // ---------------------------------------------------------------------------------

  /** The failures of all servers, server by server. */
  function AllFailures(es: seq<ServerEntry>): seq<PolicyFailure>
  {
    if es == [] then []
    else
      var d := es[|es| - 1].data;
      AllFailures(es[..|es| - 1]) + (if d.failures.Some? then d.failures.value else [])
  }

  /** Every failure of every server is among all failures, and nothing else is. */
  lemma {:induction false} AllFailuresMembers(es: seq<ServerEntry>)
    ensures forall f :: f in AllFailures(es) <==>
      exists i :: 0 <= i < |es| && es[i].data.failures.Some? && f in es[i].data.failures.value
  {
    if es != [] {
      var init := es[..|es| - 1];
      AllFailuresMembers(init);
      forall f
        ensures f in AllFailures(es) <==>
          exists i :: 0 <= i < |es| && es[i].data.failures.Some? && f in es[i].data.failures.value
      {
        if f in AllFailures(init) {
          var i :| 0 <= i < |init| && init[i].data.failures.Some? && f in init[i].data.failures.value;
          assert es[i] == init[i];
        }
        if exists i :: 0 <= i < |es| && es[i].data.failures.Some? && f in es[i].data.failures.value {
          var i :| 0 <= i < |es| && es[i].data.failures.Some? && f in es[i].data.failures.value;
          if i < |init| {
            assert init[i] == es[i];
          }
        }
      }
    }
  }

  /** The total length is the sum of the servers' failure counts. */
  lemma {:induction false} AllFailuresLength(es: seq<ServerEntry>, i: nat)
    requires i < |es| && es[i].data.failures.Some?
    ensures |es[i].data.failures.value| <= |AllFailures(es)|
  {
    if i < |es| - 1 {
      AllFailuresLength(es[..|es| - 1], i);
    }
  }

  // ---------------------------------------------------------------------------------
  // The validation message
  // ---------------------------------------------------------------------------------

  /** Which problems a caller asks about. */
  datatype Severity = Error | Warning | Both

  predicate ChecksErrors(sev: Severity)
  {
    sev == Error || sev == Both
  }

  predicate ChecksWarnings(sev: Severity)
  {
    sev == Warning || sev == Both
  }

  /** The pieces of the message, in order; their wording is not modelled. */
  datatype MessagePart =
    | NotEvaluated
    | ServerHeader(server: ServerUri)
    | RequiredNotes(names: seq<string>, plural: bool)
    | PolicyWarnings

  datatype ValidationMessage = ValidationMessage(parts: seq<MessagePart>, severity: Severity)

  predicate ReportsNotes(d: ServerData, checkError: bool)
  {
    checkError && |d.emptyNotes| > 0
  }

  predicate ReportsWarnings(d: ServerData, checkWarning: bool)
  {
    checkWarning && d.failures.Some? && |d.failures.value| > 0
  }

  /** A server's part of the message: its header if there are several servers, then its notes, then its warnings. */
  function ServerBlock(e: ServerEntry, checkError: bool, checkWarning: bool, several: bool): seq<MessagePart>
  {
    var notes := ReportsNotes(e.data, checkError);
    var warnings := ReportsWarnings(e.data, checkWarning);
    if !notes && !warnings then []
    else
      (if several then [ServerHeader(e.server)] else [])
      + (if notes then [RequiredNotes(e.data.emptyNotes, |e.data.emptyNotes| > 1)] else [])
      + (if warnings then [PolicyWarnings] else [])
  }

  function Blocks(es: seq<ServerEntry>, checkError: bool, checkWarning: bool, several: bool): seq<MessagePart>
  {
    if es == [] then []
    else Blocks(es[..|es| - 1], checkError, checkWarning, several) + ServerBlock(es[|es| - 1], checkError, checkWarning, several)
  }

  /** Warnings are only looked at once policies are evaluated. */
  predicate WarningsChecked(sev: Severity, evaluated: bool)
  {
    ChecksWarnings(sev) && evaluated
  }

  function MessageParts(es: seq<ServerEntry>, evaluated: bool, sev: Severity): seq<MessagePart>
  {
    (if !evaluated && ChecksWarnings(sev) && EvaluationEnabled(es) then [NotEvaluated] else [])
    + Blocks(es, ChecksErrors(sev), WarningsChecked(sev, evaluated), |es| > 1)
  }

  predicate NotesReported(es: seq<ServerEntry>, checkError: bool)
  {
    exists i :: 0 <= i < |es| && ReportsNotes(es[i].data, checkError)
  }

  /** Error as soon as some server reports empty required notes, else Warning. */
  function MessageSeverity(es: seq<ServerEntry>, sev: Severity): Severity
  {
    if NotesReported(es, ChecksErrors(sev)) then Error else Warning
  }

  /** `getValidationMessage`: no message when nothing qualifies. */
  function ValidationMessageOf(es: seq<ServerEntry>, evaluated: bool, sev: Severity): Option<ValidationMessage>
  {
    var parts := MessageParts(es, evaluated, sev);
    if parts == [] then None else Some(ValidationMessage(parts, MessageSeverity(es, sev)))
  }

  /** Server headers only when there are several servers; warnings only when checked; never the notice. */
  lemma {:induction false} BlocksShape(es: seq<ServerEntry>, checkError: bool, checkWarning: bool, several: bool)
    ensures var b := Blocks(es, checkError, checkWarning, several);
      && (forall u :: ServerHeader(u) in b ==> several)
      && (PolicyWarnings in b ==> checkWarning)
      && NotEvaluated !in b
  {
    if es != [] {
      BlocksShape(es[..|es| - 1], checkError, checkWarning, several);
    }
  }

  /** A notes part comes from some server's non-empty list, plural iff it has more than one name. */
  lemma {:induction false} BlocksNotesSound(es: seq<ServerEntry>, checkError: bool, checkWarning: bool, several: bool)
    ensures forall ns, pl :: RequiredNotes(ns, pl) in Blocks(es, checkError, checkWarning, several) ==>
      checkError && ns != [] && pl == (|ns| > 1) && exists i :: 0 <= i < |es| && es[i].data.emptyNotes == ns
  {
    if es != [] {
      var init := es[..|es| - 1];
      BlocksNotesSound(init, checkError, checkWarning, several);
      forall ns, pl | RequiredNotes(ns, pl) in Blocks(es, checkError, checkWarning, several)
        ensures checkError && ns != [] && pl == (|ns| > 1) && exists i :: 0 <= i < |es| && es[i].data.emptyNotes == ns
      {
        if RequiredNotes(ns, pl) in Blocks(init, checkError, checkWarning, several) {
          var i :| 0 <= i < |init| && init[i].data.emptyNotes == ns;
          assert es[i] == init[i];
        } else {
          assert es[|es| - 1].data.emptyNotes == ns;
        }
      }
    }
  }

  /** Every server with empty required notes has its notes part, when errors are checked. */
  lemma {:induction false} BlocksNotesComplete(es: seq<ServerEntry>, checkError: bool, checkWarning: bool, several: bool)
    ensures forall i :: 0 <= i < |es| && ReportsNotes(es[i].data, checkError) ==>
      RequiredNotes(es[i].data.emptyNotes, |es[i].data.emptyNotes| > 1) in Blocks(es, checkError, checkWarning, several)
  {
    if es != [] {
      var init := es[..|es| - 1];
      BlocksNotesComplete(init, checkError, checkWarning, several);
      forall i | 0 <= i < |es| && ReportsNotes(es[i].data, checkError)
        ensures RequiredNotes(es[i].data.emptyNotes, |es[i].data.emptyNotes| > 1) in Blocks(es, checkError, checkWarning, several)
      {
        if i < |init| {
          assert init[i] == es[i];
        }
      }
    }
  }

  /** The blocks are empty iff no server reports notes or warnings. */
  lemma {:induction false} BlocksEmpty(es: seq<ServerEntry>, checkError: bool, checkWarning: bool, several: bool)
    ensures Blocks(es, checkError, checkWarning, several) == [] <==>
      forall i :: 0 <= i < |es| ==> !ReportsNotes(es[i].data, checkError) && !ReportsWarnings(es[i].data, checkWarning)
  {
    if es != [] {
      var init := es[..|es| - 1];
      BlocksEmpty(init, checkError, checkWarning, several);
      if forall i :: 0 <= i < |init| ==> !ReportsNotes(init[i].data, checkError) && !ReportsWarnings(init[i].data, checkWarning) {
        if !ReportsNotes(es[|es| - 1].data, checkError) && !ReportsWarnings(es[|es| - 1].data, checkWarning) {
          forall i | 0 <= i < |es|
            ensures !ReportsNotes(es[i].data, checkError) && !ReportsWarnings(es[i].data, checkWarning)
          {
            if i < |init| {
              assert init[i] == es[i];
            }
          }
        }
      } else {
        var i :| 0 <= i < |init| && !(!ReportsNotes(init[i].data, checkError) && !ReportsWarnings(init[i].data, checkWarning));
        assert es[i] == init[i];
      }
    }
  }

  /** The not-evaluated notice appears iff warnings are asked for before evaluation and some project uses policies. */
  lemma NotEvaluatedNotice(es: seq<ServerEntry>, evaluated: bool, sev: Severity)
    ensures NotEvaluated in MessageParts(es, evaluated, sev) <==> !evaluated && ChecksWarnings(sev) && EvaluationEnabled(es)
  {
    BlocksShape(es, ChecksErrors(sev), WarningsChecked(sev, evaluated), |es| > 1);
  }

  /** Before evaluation no policy warning is reported, whatever the caller asks for. */
  lemma NoWarningsBeforeEvaluation(es: seq<ServerEntry>, sev: Severity)
    ensures PolicyWarnings !in MessageParts(es, false, sev)
  {
    BlocksShape(es, ChecksErrors(sev), WarningsChecked(sev, false), |es| > 1);
  }

  /** Server headers appear only when there is more than one server. */
  lemma HeadersOnlyForSeveralServers(es: seq<ServerEntry>, evaluated: bool, sev: Severity)
    ensures forall u :: ServerHeader(u) in MessageParts(es, evaluated, sev) ==> |es| > 1
  {
    BlocksShape(es, ChecksErrors(sev), WarningsChecked(sev, evaluated), |es| > 1);
  }

  /**
   * Under an error-checking filter every server's empty required notes are reported, and
   * the plural form is used iff there is more than one.
   */
  lemma RequiredNotesReported(es: seq<ServerEntry>, evaluated: bool, sev: Severity)
    ensures var parts := MessageParts(es, evaluated, sev);
      && (forall ns, pl :: RequiredNotes(ns, pl) in parts ==>
            ChecksErrors(sev) && ns != [] && pl == (|ns| > 1) && exists i :: 0 <= i < |es| && es[i].data.emptyNotes == ns)
      && (ChecksErrors(sev) ==> forall i :: 0 <= i < |es| && |es[i].data.emptyNotes| > 0 ==>
            RequiredNotes(es[i].data.emptyNotes, |es[i].data.emptyNotes| > 1) in parts)
  {
    BlocksShape(es, ChecksErrors(sev), WarningsChecked(sev, evaluated), |es| > 1);
    BlocksNotesSound(es, ChecksErrors(sev), WarningsChecked(sev, evaluated), |es| > 1);
    BlocksNotesComplete(es, ChecksErrors(sev), WarningsChecked(sev, evaluated), |es| > 1);
  }

  /** The message is absent iff nothing qualifies, and its severity is Error iff some server reported notes. */
  lemma MessageAbsentIffNothingQualifies(es: seq<ServerEntry>, evaluated: bool, sev: Severity)
    ensures var r := ValidationMessageOf(es, evaluated, sev);
      && (r.None? <==>
            && !(!evaluated && ChecksWarnings(sev) && EvaluationEnabled(es))
            && forall i :: 0 <= i < |es| ==>
                 !ReportsNotes(es[i].data, ChecksErrors(sev)) && !ReportsWarnings(es[i].data, WarningsChecked(sev, evaluated)))
      && (r.Some? ==> (r.value.severity == Error <==>
            ChecksErrors(sev) && exists i :: 0 <= i < |es| && |es[i].data.emptyNotes| > 0))
  {
    BlocksEmpty(es, ChecksErrors(sev), WarningsChecked(sev, evaluated), |es| > 1);
  }

  // ---------------------------------------------------------------------------------
  // Policy override
  // ---------------------------------------------------------------------------------

  /** The failures by policy name, a later failure replacing an earlier one with the same name. */
  function OverrideMap(fs: seq<PolicyFailure>): map<string, PolicyFailure>
  {
    if fs == [] then map[]
    else OverrideMap(fs[..|fs| - 1])[FailurePolicyName(fs[|fs| - 1]) := fs[|fs| - 1]]
  }

  /** The override map is keyed by exactly the failing policies' names. */
  lemma {:induction false} OverrideMapKeys(fs: seq<PolicyFailure>)
    ensures forall n :: n in OverrideMap(fs) <==> exists k :: 0 <= k < |fs| && FailurePolicyName(fs[k]) == n
  {
    if fs != [] {
      var init := fs[..|fs| - 1];
      OverrideMapKeys(init);
      forall n
        ensures n in OverrideMap(fs) <==> exists k :: 0 <= k < |fs| && FailurePolicyName(fs[k]) == n
      {
        if n in OverrideMap(init) {
          var k :| 0 <= k < |init| && FailurePolicyName(init[k]) == n;
          assert fs[k] == init[k];
        }
        if exists k :: 0 <= k < |fs| && FailurePolicyName(fs[k]) == n {
          var k :| 0 <= k < |fs| && FailurePolicyName(fs[k]) == n;
          if k < |init| {
            assert init[k] == fs[k];
          }
        }
      }
    }
  }

  /** A failure with no later failure of the same policy name is the one the map keeps. */
  lemma {:induction false} OverrideMapLastWins(fs: seq<PolicyFailure>, k: nat)
    requires k < |fs|
    requires forall j :: k < j < |fs| ==> FailurePolicyName(fs[j]) != FailurePolicyName(fs[k])
    ensures FailurePolicyName(fs[k]) in OverrideMap(fs) && OverrideMap(fs)[FailurePolicyName(fs[k])] == fs[k]
  {
    if k < |fs| - 1 {
      var init := fs[..|fs| - 1];
      OverrideMapLastWins(init, k);
    }
  }

  /** `getPolicyOverride`: nothing without a reason; the failures are needed once there is one. */
  datatype PolicyOverride = NoReason | FailuresMissing | Override(reason: string, failures: map<string, PolicyFailure>)

  function OverrideOf(reason: Option<string>, d: ServerData): PolicyOverride
  {
    if reason.None? then NoReason
    else if d.failures.None? then FailuresMissing
    else Override(reason.value, OverrideMap(d.failures.value))
  }
}
