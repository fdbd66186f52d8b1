/**
 * `CheckinParameters`: the check-in state of every server a commit touches, built once
 * when the check-in dialog opens and then queried and updated as the user edits notes,
 * re-evaluates policies or supplies an override reason.
 */
module Checkin {
  import opened Wrappers
  import opened CheckinNotes
  import opened CheckinPolicies
  import opened CheckinData

  /**
   * What loading one server starts from: its team projects (listed in the order their
   * collection iterates), the files checked in to it, the result of the note definition
   * query and the results of the annotation queries.
   */
  datatype ServerInput = ServerInput(
    server: ServerUri,
    projects: seq<TeamProject>,
    files: seq<FilePath>,
    noteDefinitions: Result<seq<NoteDefinition>, string>,
    queries: PolicyQueries)

  const MappingsNotFound: string := "Team Foundation Server mappings not found."

  /** Loading a server fails when the note query fails or discovery crashes. */
  predicate LoadFails(input: ServerInput, defaults: Compatibility)
  {
    input.noteDefinitions.Failure? || Discover(input.projects, defaults, input.queries).Crashed?
  }

  /** The team-project map as discovery left it, in the order of the project list. */
  function PoliciesOf(input: ServerInput, defaults: Compatibility): (es: seq<ProjectEntry>)
    ensures var st := Discover(input.projects, defaults, input.queries);
      !st.Crashed? ==> (forall p :: p in input.projects ==> p in st.discovery.projects) && |es| == |input.projects| && forall k :: 0 <= k < |es| ==>
        es[k].project == input.projects[k] && es[k].data == st.discovery.projects[input.projects[k]]
  {
    var st := Discover(input.projects, defaults, input.queries);
    if st.Crashed? then []
    else
      DiscoveryKeepsProjects(input.projects, defaults, input.queries);
      seq(|input.projects|, k requires 0 <= k < |input.projects| =>
        ProjectEntry(input.projects[k], st.discovery.projects[input.projects[k]]))
  }

  /** The parse error discovery stopped at, or nothing. */
  function StopMessage(input: ServerInput, defaults: Compatibility): string
  {
    var st := Discover(input.projects, defaults, input.queries);
    if st.Stopped? then st.message else ""
  }

  /** The load error: the parse errors of all servers, one after another. */
  function LoadErrors(inputs: seq<ServerInput>, defaults: Compatibility): string
  {
    if inputs == [] then "" else LoadErrors(inputs[..|inputs| - 1], defaults) + StopMessage(inputs[|inputs| - 1], defaults)
  }

  /**
   * A server's data as loading leaves it: its files, the factorised notes in display
   * order, and its team projects as discovery left them.
   */
  ghost predicate LoadedAs(input: ServerInput, defaults: Compatibility, d: ServerData, sorted: seq<NoteDefinition>)
  {
    && input.noteDefinitions.Success?
    && d.files == input.files
    && d.policies == PoliciesOf(input, defaults)
    && IsFactorization(sorted, input.noteDefinitions.value)
    && |d.notes| == |sorted|
    && forall k :: 0 <= k < |sorted| ==> d.notes[k].name == sorted[k].name && d.notes[k].required == sorted[k].required
  }

  /** A server entry as loading leaves it for `input`. */
  ghost predicate LoadedEntry(input: ServerInput, defaults: Compatibility, e: ServerEntry, sorted: seq<NoteDefinition>)
  {
    e.server == input.server && LoadedAs(input, defaults, e.data, sorted)
  }

  /** Two entries agree on everything loading sets: server, notes, files and team projects. */
  predicate SameLoad(a: ServerEntry, b: ServerEntry)
  {
    a.server == b.server && a.data.notes == b.data.notes && a.data.files == b.data.files && a.data.policies == b.data.policies
  }

  lemma LoadedEntryKept(input: ServerInput, defaults: Compatibility, a: ServerEntry, b: ServerEntry, sorted: seq<NoteDefinition>)
    requires LoadedEntry(input, defaults, a, sorted) && SameLoad(a, b)
    ensures LoadedEntry(input, defaults, b, sorted)
  {
  }

  /** The blocks of several servers end with the last server's block. */
  lemma BlocksSnoc(es: seq<ServerEntry>, checkError: bool, checkWarning: bool, several: bool)
    requires es != []
    ensures Blocks(es, checkError, checkWarning, several)
      == Blocks(es[..|es| - 1], checkError, checkWarning, several) + ServerBlock(es[|es| - 1], checkError, checkWarning, several)
  {
  }

  /** Loaded entries keep the servers of their inputs, so distinct inputs give distinct entries. */
  lemma LoadedDistinct(inputs: seq<ServerInput>, defaults: Compatibility, es: seq<ServerEntry>, sorted: seq<seq<NoteDefinition>>)
    requires AllLoaded(inputs, defaults, es, sorted)
    requires forall i, j :: 0 <= i < j < |inputs| ==> inputs[i].server != inputs[j].server
    ensures DistinctServers(es)
  {
    forall i, j | 0 <= i < j < |es|
      ensures es[i].server != es[j].server
    {
      assert LoadedEntry(inputs[i], defaults, es[i], sorted[i]);
      assert LoadedEntry(inputs[j], defaults, es[j], sorted[j]);
    }
  }

  /** Some server reports notes iff one before the last does, or the last does. */
  lemma NotesReportedSnoc(es: seq<ServerEntry>, checkError: bool)
    requires es != []
    ensures NotesReported(es, checkError) <==>
      NotesReported(es[..|es| - 1], checkError) || ReportsNotes(es[|es| - 1].data, checkError)
  {
    var init := es[..|es| - 1];
    if NotesReported(init, checkError) {
      var i :| 0 <= i < |init| && ReportsNotes(init[i].data, checkError);
      assert es[i] == init[i];
    }
    if NotesReported(es, checkError) {
      var i :| 0 <= i < |es| && ReportsNotes(es[i].data, checkError);
      if i < |init| {
        assert es[i] == init[i];
      }
    }
  }

  /** Every server entry is loaded from the input at the same position. */
  ghost predicate AllLoaded(inputs: seq<ServerInput>, defaults: Compatibility, es: seq<ServerEntry>, sorted: seq<seq<NoteDefinition>>)
  {
    && |inputs| == |es| == |sorted|
    && forall i :: 0 <= i < |inputs| ==> LoadedEntry(inputs[i], defaults, es[i], sorted[i])
  }

  lemma AllLoadedSnoc(inputs: seq<ServerInput>, defaults: Compatibility, es: seq<ServerEntry>, sorted: seq<seq<NoteDefinition>>,
                      input: ServerInput, e: ServerEntry, definitions: seq<NoteDefinition>)
    requires AllLoaded(inputs, defaults, es, sorted) && LoadedEntry(input, defaults, e, definitions)
    ensures AllLoaded(inputs + [input], defaults, es + [e], sorted + [definitions])
  {
    var inputs', es', sorted' := inputs + [input], es + [e], sorted + [definitions];
    forall i | 0 <= i < |inputs'|
      ensures LoadedEntry(inputs'[i], defaults, es'[i], sorted'[i])
    {
      if i < |inputs| {
        assert inputs'[i] == inputs[i] && es'[i] == es[i] && sorted'[i] == sorted[i];
      }
    }
  }

  lemma AllLoadedKept(inputs: seq<ServerInput>, defaults: Compatibility, a: seq<ServerEntry>, b: seq<ServerEntry>, sorted: seq<seq<NoteDefinition>>)
    requires AllLoaded(inputs, defaults, a, sorted) && |a| == |b|
    requires forall i :: 0 <= i < |a| ==> SameLoad(a[i], b[i])
    ensures AllLoaded(inputs, defaults, b, sorted)
  {
    forall i | 0 <= i < |inputs|
      ensures LoadedEntry(inputs[i], defaults, b[i], sorted[i])
    {
      LoadedEntryKept(inputs[i], defaults, a[i], b[i], sorted[i]);
    }
  }

  /** What evaluating the policies of one server yields. */
  function EvaluationOf(e: ServerEntry, find: PolicyRegistry, commitMessage: string): Option<seq<PolicyFailure>>
  {
    ServerFailures(e.data.policies, find, ContextOf(e.data, commitMessage))
  }

  /**
   * The failure lists an evaluation cancelled at server `k` leaves behind, starting from
   * servers with none: the servers before `k` hold their evaluation, `k` and the later
   * ones still hold none.
   */
  predicate CancelledAt(entries: seq<ServerEntry>, k: int, find: PolicyRegistry, commitMessage: string)
  {
    && 0 <= k < |entries|
    && EvaluationOf(entries[k], find, commitMessage).None?
    && (forall m :: 0 <= m < k ==> entries[m].data.failures == EvaluationOf(entries[m], find, commitMessage))
    && (forall m :: k <= m < |entries| ==> entries[m].data.failures == None)
  }

  class CheckinParameters {
    var entries: seq<ServerEntry>
    var policiesEvaluated: bool
    var overrideReason: Option<string>
    const policiesLoadError: Option<string>

    /** Servers are distinct, and once evaluated every server has its failure list. */
    ghost predicate Valid()
      reads this
    {
      && DistinctServers(entries)
      && (policiesEvaluated ==> forall i :: 0 <= i < |entries| ==> entries[i].data.failures.Some?)
    }

    /** The note objects of all servers. */
    ghost function NoteObjects(): set<CheckinNote>
      reads this
    {
      set i, k | 0 <= i < |entries| && 0 <= k < |entries[i].data.notes| :: entries[i].data.notes[k]
    }

    /** Every server's empty-notes list matches its notes' current values. */
    ghost predicate NotesValidated()
      reads this, NoteObjects()
    {
      forall i :: 0 <= i < |entries| ==> entries[i].data.emptyNotes == EmptyNoteNames(entries[i].data.notes)
    }

    /** The private constructor `createCopy` uses. */
    constructor (entries: seq<ServerEntry>, evaluated: bool, loadError: Option<string>)
      requires DistinctServers(entries)
      requires evaluated ==> forall i :: 0 <= i < |entries| ==> entries[i].data.failures.Some?
      ensures Valid()
      ensures this.entries == entries && policiesEvaluated == evaluated
      ensures policiesLoadError == loadError && overrideReason == None
    {
      this.entries := entries;
      policiesEvaluated := evaluated;
      policiesLoadError := loadError;
      overrideReason := None;
    }

    /** Loads one server: its notes, then its policies; fails on a query error or a crash. */
    static method LoadServer(input: ServerInput, defaults: Compatibility) returns (r: Result<ServerData, string>, ghost sorted: seq<NoteDefinition>)
      ensures input.noteDefinitions.Failure? ==> r == Failure(input.noteDefinitions.error)
      ensures r.Failure? <==> LoadFails(input, defaults)
      ensures r.Success? ==>
        && LoadedAs(input, defaults, r.value, sorted)
        && r.value.failures == None
        && forall k :: 0 <= k < |r.value.notes| ==> fresh(r.value.notes[k]) && r.value.notes[k].value == None
    {
      if input.noteDefinitions.Failure? {
        return Failure(input.noteDefinitions.error), [];
      }
      var definitions := FactorizeNotes(input.noteDefinitions.value);
      sorted := definitions;
      var notes := CreateNotes(definitions);
      var stage := DiscoverPolicies(input.projects, defaults, input.queries);
      if stage.Crashed? {
        return Failure(stage.message), sorted;
      }
      var policies := PoliciesOf(input, defaults);
      r := Success(ServerData(notes, input.files, policies, None, []));
    }

    /** Loads every server in order; the first failing server fails the whole load. */
    static method LoadServers(inputs: seq<ServerInput>, defaults: Compatibility)
      returns (r: Result<seq<ServerEntry>, string>, ghost sorted: seq<seq<NoteDefinition>>)
      ensures r.Success? <==> forall i :: 0 <= i < |inputs| ==> !LoadFails(inputs[i], defaults)
      ensures r.Success? ==>
        && |r.value| == |inputs|
        && AllLoaded(inputs, defaults, r.value, sorted)
        && (forall i :: 0 <= i < |inputs| ==> r.value[i].data.failures == None)
        && (forall i, k :: 0 <= i < |inputs| && 0 <= k < |r.value[i].data.notes| ==>
              r.value[i].data.notes[k].value == None)
    {
      var entries: seq<ServerEntry> := [];
      sorted := [];
      var i := 0;
      while i < |inputs|
        invariant 0 <= i <= |inputs| && |entries| == i && |sorted| == i
        invariant forall m :: 0 <= m < i ==> !LoadFails(inputs[m], defaults)
        invariant AllLoaded(inputs[..i], defaults, entries, sorted)
        invariant forall m :: 0 <= m < i ==> entries[m].data.failures == None
        invariant forall m, k :: 0 <= m < i && 0 <= k < |entries[m].data.notes| ==>
          entries[m].data.notes[k].value == None
      {
        var loaded, definitions := LoadServer(inputs[i], defaults);
        if loaded.Failure? {
          return Failure(loaded.error), sorted;
        }
        var e := ServerEntry(inputs[i].server, loaded.value);
        AllLoadedSnoc(inputs[..i], defaults, entries, sorted, inputs[i], e, definitions);
        assert inputs[..i + 1] == inputs[..i] + [inputs[i]];
        entries := entries + [e];
        sorted := sorted + [definitions];
        i := i + 1;
      }
      assert inputs[..i] == inputs;
      r := Success(entries);
    }

    /** Concatenates the servers' parse errors, in order. */
    static method CollectLoadErrors(inputs: seq<ServerInput>, defaults: Compatibility) returns (error: string)
      ensures error == LoadErrors(inputs, defaults)
    {
      error := "";
      var i := 0;
      while i < |inputs|
        invariant 0 <= i <= |inputs|
        invariant error == LoadErrors(inputs[..i], defaults)
      {
        assert inputs[..i + 1][..i] == inputs[..i];
        var stage := DiscoverPolicies(inputs[i].projects, defaults, inputs[i].queries);
        if stage.Stopped? {
          error := error + stage.message;
        }
        i := i + 1;
      }
      assert inputs[..i] == inputs;
    }

    /**
     * The public constructor: loads every server in order, then evaluates the policies
     * if asked to, then validates the notes. A load failure of any server fails the whole
     * construction; a cancelled evaluation does not: it leaves policies not evaluated, the
     * servers before the cancelled one with their new failures and the rest with none.
     */
    static method Create(inputs: seq<ServerInput>, defaults: Compatibility, evaluate: bool, find: PolicyRegistry, commitMessage: string)
      returns (r: Result<CheckinParameters, string>)
      requires forall i, j :: 0 <= i < j < |inputs| ==> inputs[i].server != inputs[j].server
      ensures inputs == [] ==> r == Failure(MappingsNotFound)
      ensures r.Success? <==> inputs != [] && forall i :: 0 <= i < |inputs| ==> !LoadFails(inputs[i], defaults)
      ensures r.Success? ==> fresh(r.value) && r.value.Valid() && r.value.overrideReason == None
      ensures r.Success? ==>
        r.value.policiesLoadError == (if LoadErrors(inputs, defaults) == "" then None else Some(LoadErrors(inputs, defaults)))
      ensures r.Success? ==> |r.value.entries| == |inputs| && exists sorted :: AllLoaded(inputs, defaults, r.value.entries, sorted)
      ensures r.Success? ==> forall i, k :: 0 <= i < |inputs| && 0 <= k < |r.value.entries[i].data.notes| ==>
        r.value.entries[i].data.notes[k].value == None
      ensures r.Success? ==> r.value.NotesValidated()
      ensures r.Success? ==> (r.value.policiesEvaluated <==>
        evaluate && forall i :: 0 <= i < |inputs| ==> EvaluationOf(r.value.entries[i], find, commitMessage).Some?)
      ensures r.Success? && r.value.policiesEvaluated ==>
        forall i :: 0 <= i < |inputs| ==> r.value.entries[i].data.failures == EvaluationOf(r.value.entries[i], find, commitMessage)
      ensures r.Success? && !evaluate ==> forall i :: 0 <= i < |inputs| ==> r.value.entries[i].data.failures == None
      ensures r.Success? && evaluate && !r.value.policiesEvaluated ==> exists k :: CancelledAt(r.value.entries, k, find, commitMessage)
    {
      if inputs == [] {
        return Failure(MappingsNotFound);
      }
      var loaded, sorted := LoadServers(inputs, defaults);
      if loaded.Failure? {
        return Failure(loaded.error);
      }
      var entries := loaded.value;
      LoadedDistinct(inputs, defaults, entries, sorted);
      var loadError := CollectLoadErrors(inputs, defaults);
      var p := Assemble(entries, if loadError == "" then None else Some(loadError), evaluate, find, commitMessage);
      AllLoadedKept(inputs, defaults, entries, p.entries, sorted);
      forall i, k | 0 <= i < |inputs| && 0 <= k < |p.entries[i].data.notes|
        ensures p.entries[i].data.notes[k].value == None
      {
        assert p.entries[i].data.notes[k] == entries[i].data.notes[k];
      }
      r := Success(p);
    }

    /**
     * The end of the public constructor: the parameters over loaded entries, evaluated
     * if asked to, with their notes validated.
     */
    static method Assemble(entries: seq<ServerEntry>, loadError: Option<string>, evaluate: bool, find: PolicyRegistry, commitMessage: string)
      returns (p: CheckinParameters)
      requires DistinctServers(entries)
      requires forall i :: 0 <= i < |entries| ==> entries[i].data.failures == None
      ensures fresh(p) && p.Valid() && p.overrideReason == None && p.policiesLoadError == loadError
      ensures |p.entries| == |entries| && forall i :: 0 <= i < |entries| ==> SameLoad(entries[i], p.entries[i])
      ensures p.NotesValidated()
      ensures p.policiesEvaluated <==> evaluate && forall i :: 0 <= i < |entries| ==> EvaluationOf(p.entries[i], find, commitMessage).Some?
      ensures p.policiesEvaluated ==> forall i :: 0 <= i < |entries| ==> p.entries[i].data.failures == EvaluationOf(p.entries[i], find, commitMessage)
      ensures !evaluate ==> forall i :: 0 <= i < |entries| ==> p.entries[i].data.failures == None
      ensures evaluate && !p.policiesEvaluated ==> exists k :: CancelledAt(p.entries, k, find, commitMessage)
    {
      p := new CheckinParameters(entries, false, loadError);
      ghost var stop := 0;
      if evaluate {
        var cancelled := p.EvaluatePolicies(find, commitMessage);
        if cancelled {
          stop :| && 0 <= stop < |entries|
                  && EvaluationOf(entries[stop], find, commitMessage).None?
                  && (forall m :: 0 <= m < stop ==>
                        p.entries[m] == entries[m].(data := entries[m].data.(failures := EvaluationOf(entries[m], find, commitMessage))))
                  && (forall m :: stop <= m < |entries| ==> p.entries[m] == entries[m]);
        }
      }
      ghost var evaluated := p.entries;
      p.ValidateNotes();
      if evaluate && !p.policiesEvaluated {
        assert CancelledAt(p.entries, stop, find, commitMessage);
      }
      forall i | 0 <= i < |entries|
        ensures SameLoad(entries[i], p.entries[i])
      {
        assert SameLoad(entries[i], evaluated[i]) && SameLoad(evaluated[i], p.entries[i]);
      }
    }

    /**
     * `evaluatePolicies`: evaluates each server's policies in order and records its
     * failures. A cancellation stops at the server being evaluated: the servers before
     * it keep their new failures, the rest their old ones, and the evaluated flag is not set.
     */
    method EvaluatePolicies(find: PolicyRegistry, commitMessage: string) returns (cancelled: bool)
      requires Valid()
      modifies this
      ensures Valid()
      ensures overrideReason == old(overrideReason) && |entries| == |old(entries)|
      ensures forall i :: 0 <= i < |entries| ==> SameLoad(old(entries)[i], entries[i]) && entries[i].data.emptyNotes == old(entries)[i].data.emptyNotes
      ensures !cancelled <==> forall i :: 0 <= i < |entries| ==> EvaluationOf(old(entries)[i], find, commitMessage).Some?
      ensures !cancelled ==> policiesEvaluated && forall i :: 0 <= i < |entries| ==>
        entries[i] == old(entries)[i].(data := old(entries)[i].data.(failures := EvaluationOf(old(entries)[i], find, commitMessage)))
      ensures cancelled ==> policiesEvaluated == old(policiesEvaluated)
      ensures cancelled ==> exists k ::
        && 0 <= k < |entries|
        && EvaluationOf(old(entries)[k], find, commitMessage).None?
        && (forall m :: 0 <= m < k ==>
              && EvaluationOf(old(entries)[m], find, commitMessage).Some?
              && entries[m] == old(entries)[m].(data := old(entries)[m].data.(failures := EvaluationOf(old(entries)[m], find, commitMessage))))
        && (forall m :: k <= m < |entries| ==> entries[m] == old(entries)[m])
    {
      var i := 0;
      while i < |entries|
        invariant 0 <= i <= |entries| && |entries| == |old(entries)|
        invariant policiesEvaluated == old(policiesEvaluated) && overrideReason == old(overrideReason)
        invariant forall m :: 0 <= m < i ==>
          && EvaluationOf(old(entries)[m], find, commitMessage).Some?
          && entries[m] == old(entries)[m].(data := old(entries)[m].data.(failures := EvaluationOf(old(entries)[m], find, commitMessage)))
        invariant forall m :: i <= m < |entries| ==> entries[m] == old(entries)[m]
        invariant Valid()
      {
        var e := entries[i];
        var failures := EvaluateServer(e.data.policies, find, ContextOf(e.data, commitMessage));
        if failures.None? {
          return true;
        }
        entries := entries[i := e.(data := e.data.(failures := failures))];
        i := i + 1;
      }
      policiesEvaluated := true;
      return false;
    }

    /**
     * `validateNotes`: sets every server's empty-notes list from its notes' current
     * values; run again with unchanged values it changes nothing.
     */
    method ValidateNotes()
      requires Valid()
      modifies this
      ensures Valid() && NotesValidated()
      ensures policiesEvaluated == old(policiesEvaluated) && overrideReason == old(overrideReason)
      ensures |entries| == |old(entries)| && forall i :: 0 <= i < |entries| ==>
        entries[i] == old(entries)[i].(data := old(entries)[i].data.(emptyNotes := EmptyNoteNames(old(entries)[i].data.notes)))
      ensures old(NotesValidated()) ==> entries == old(entries)
      ensures forall i :: 0 <= i < |entries| ==> SameLoad(old(entries)[i], entries[i]) && entries[i].data.failures == old(entries)[i].data.failures
    {
      var i := 0;
      while i < |entries|
        invariant 0 <= i <= |entries| && |entries| == |old(entries)|
        invariant policiesEvaluated == old(policiesEvaluated) && overrideReason == old(overrideReason)
        invariant forall m :: 0 <= m < i ==>
          entries[m] == old(entries)[m].(data := old(entries)[m].data.(emptyNotes := EmptyNoteNames(old(entries)[m].data.notes)))
        invariant forall m :: i <= m < |entries| ==> entries[m] == old(entries)[m]
        invariant Valid()
      {
        var e := entries[i];
        var names := CollectEmptyNotes(e.data.notes);
        entries := entries[i := e.(data := e.data.(emptyNotes := names))];
        i := i + 1;
      }
    }

    /** `evaluationEnabled`. */
    method EvaluationEnabled() returns (r: bool)
      ensures r == CheckinData.EvaluationEnabled(entries)
    {
      var i := 0;
      while i < |entries|
        invariant 0 <= i <= |entries|
        invariant forall m :: 0 <= m < i ==> !ServerUsesPolicies(entries[m].data)
      {
        var policies := entries[i].data.policies;
        var k := 0;
        while k < |policies|
          invariant 0 <= k <= |policies|
          invariant forall j :: 0 <= j < k ==> !UsesPolicies(policies[j].data.compatibility)
        {
          if UsesPolicies(policies[k].data.compatibility) {
            return true;
          }
          k := k + 1;
        }
        i := i + 1;
      }
      return false;
    }

    /** `hasEmptyNotes`. */
    function HasEmptyNotes(server: ServerUri): (r: bool)
      requires Listed(entries, server)
      reads this
      ensures r <==> |DataOf(entries, server).emptyNotes| > 0
    {
      DataOf(entries, server).emptyNotes != []
    }

    /** Once notes are validated, a server has empty notes iff one of its required notes is blank. */
    lemma EmptyNotesMeanBlankRequired(server: ServerUri)
      requires Valid() && NotesValidated() && Listed(entries, server)
      ensures HasEmptyNotes(server) <==>
        exists k :: 0 <= k < |DataOf(entries, server).notes| && IsMissing(DataOf(entries, server).notes[k])
    {
      var d := DataOf(entries, server);
      var i :| 0 <= i < |entries| && entries[i].server == server;
      assert entries[i].data == d;
      assert d.emptyNotes == EmptyNoteNames(d.notes);
      EmptyNoteNamesMembers(d.notes);
      if HasEmptyNotes(server) {
        var n := d.emptyNotes[0];
        assert n in EmptyNoteNames(d.notes);
        var k :| 0 <= k < |d.notes| && d.notes[k].name == n && IsMissing(d.notes[k]);
        assert 0 <= k < |DataOf(entries, server).notes| && IsMissing(DataOf(entries, server).notes[k]);
      } else {
        forall k | 0 <= k < |d.notes|
          ensures !IsMissing(d.notes[k])
        {
          assert d.notes[k].name !in EmptyNoteNames(d.notes);
        }
      }
    }

    /** `hasPolicyFailures`. */
    method HasPolicyFailures(server: ServerUri) returns (r: bool)
      requires Valid() && Listed(entries, server)
      ensures r == CheckinData.HasPolicyFailures(DataOf(entries, server), policiesEvaluated)
    {
      var d := DataOf(entries, server);
      var evaluationEnabled := false;
      var k := 0;
      while k < |d.policies|
        invariant 0 <= k <= |d.policies|
        invariant !evaluationEnabled && forall j :: 0 <= j < k ==> !UsesPolicies(d.policies[j].data.compatibility)
      {
        if UsesPolicies(d.policies[k].data.compatibility) {
          evaluationEnabled := true;
          break;
        }
        k := k + 1;
      }
      r := evaluationEnabled && (!policiesEvaluated || |d.failures.value| > 0);
    }

    /** `getFailures`: empty before evaluation, the server's failures after. */
    function GetFailures(server: ServerUri): (fs: seq<PolicyFailure>)
      requires Valid() && (policiesEvaluated ==> Listed(entries, server))
      reads this
      ensures !policiesEvaluated ==> fs == []
      ensures policiesEvaluated ==> DataOf(entries, server).failures == Some(fs)
    {
      if !policiesEvaluated then [] else DataOf(entries, server).failures.value
    }

    /** `getAllFailures`: empty before evaluation, every server's failures in order after. */
    method GetAllFailures() returns (fs: seq<PolicyFailure>)
      ensures fs == if policiesEvaluated then AllFailures(entries) else []
    {
      if !policiesEvaluated {
        return [];
      }
      fs := [];
      var i := 0;
      while i < |entries|
        invariant 0 <= i <= |entries|
        invariant fs == AllFailures(entries[..i])
      {
        assert entries[..i + 1][..i] == entries[..i];
        var d := entries[i].data;
        if d.failures.Some? {
          fs := fs + d.failures.value;
        }
        i := i + 1;
      }
      assert entries[..i] == entries;
    }

    /** Every failure `getFailures` returns for a server is among `getAllFailures`. */
    lemma FailuresAmongAll(server: ServerUri)
      requires Valid() && (policiesEvaluated ==> Listed(entries, server))
      ensures forall f :: f in GetFailures(server) ==> policiesEvaluated && f in AllFailures(entries)
    {
      AllFailuresMembers(entries);
      if policiesEvaluated {
        var i :| 0 <= i < |entries| && entries[i].server == server;
        assert entries[i].data == DataOf(entries, server);
      }
    }

    /** One server's turn in `getValidationMessage`: appends its block, and says whether it reported notes. */
    static method AppendServerBlock(parts: seq<MessagePart>, e: ServerEntry, checkError: bool, checkWarning: bool, several: bool)
      returns (r: seq<MessagePart>, noted: bool)
      requires checkWarning ==> e.data.failures.Some?
      ensures r == parts + ServerBlock(e, checkError, checkWarning, several)
      ensures noted == ReportsNotes(e.data, checkError)
    {
      noted := checkError && |e.data.emptyNotes| > 0;
      var warnings := checkWarning && |e.data.failures.value| > 0;
      r := parts;
      if noted || warnings {
        if several {
          r := r + [ServerHeader(e.server)];
        }
        if noted {
          r := r + [RequiredNotes(e.data.emptyNotes, |e.data.emptyNotes| > 1)];
        }
        if warnings {
          r := r + [PolicyWarnings];
        }
      }
    }

    /** The per-server loop of `getValidationMessage`: every server's block in order, and whether any reported notes. */
    static method ServerBlocks(es: seq<ServerEntry>, checkError: bool, checkWarning: bool, several: bool)
      returns (parts: seq<MessagePart>, noted: bool)
      requires checkWarning ==> forall i :: 0 <= i < |es| ==> es[i].data.failures.Some?
      ensures parts == Blocks(es, checkError, checkWarning, several)
      ensures noted == NotesReported(es, checkError)
    {
      parts := [];
      noted := false;
      var i := 0;
      while i < |es|
        invariant 0 <= i <= |es|
        invariant parts == Blocks(es[..i], checkError, checkWarning, several)
        invariant noted == NotesReported(es[..i], checkError)
      {
        assert es[..i + 1][..i] == es[..i];
        NotesReportedSnoc(es[..i + 1], checkError);
        BlocksSnoc(es[..i + 1], checkError, checkWarning, several);
        var reported;
        parts, reported := AppendServerBlock(parts, es[i], checkError, checkWarning, several);
        noted := noted || reported;
        i := i + 1;
      }
      assert es[..i] == es;
    }

    /** `getValidationMessage`. */
    method GetValidationMessage(sev: Severity) returns (r: Option<ValidationMessage>)
      requires Valid()
      ensures r == ValidationMessageOf(entries, policiesEvaluated, sev)
    {
      var parts: seq<MessagePart> := [];
      var checkError := ChecksErrors(sev);
      var checkWarning := ChecksWarnings(sev);
      if !policiesEvaluated && checkWarning {
        var enabled := EvaluationEnabled();
        if enabled {
          parts := [NotEvaluated];
        }
        checkWarning := false;
      }
      assert checkWarning == WarningsChecked(sev, policiesEvaluated);
      var blocks, noted := ServerBlocks(entries, checkError, checkWarning, |entries| > 1);
      parts := parts + blocks;
      var severity := if noted then Error else Warning;
      r := if parts == [] then None else Some(ValidationMessage(parts, severity));
    }

    /**
     * `createCopy`: new note objects with the same names, flags and values; the files,
     * team projects, failures and empty-notes lists carried over; the evaluated flag and
     * load error kept; the override reason not copied.
     */
    method CreateCopy() returns (c: CheckinParameters)
      requires Valid()
      ensures fresh(c) && c.Valid()
      ensures c.policiesEvaluated == policiesEvaluated && c.policiesLoadError == policiesLoadError && c.overrideReason == None
      ensures |c.entries| == |entries| && forall i :: 0 <= i < |entries| ==>
        && c.entries[i] == entries[i].(data := entries[i].data.(notes := c.entries[i].data.notes))
        && |c.entries[i].data.notes| == |entries[i].data.notes|
      ensures forall i, k :: 0 <= i < |entries| && 0 <= k < |entries[i].data.notes| ==>
        var copy := c.entries[i].data.notes[k];
        var original := entries[i].data.notes[k];
        fresh(copy) && copy.name == original.name && copy.required == original.required && copy.value == original.value
    {
      var copied: seq<ServerEntry> := [];
      var i := 0;
      while i < |entries|
        invariant 0 <= i <= |entries| && |copied| == i
        invariant forall m :: 0 <= m < i ==>
          && copied[m] == entries[m].(data := entries[m].data.(notes := copied[m].data.notes))
          && |copied[m].data.notes| == |entries[m].data.notes|
        invariant forall m, k :: 0 <= m < i && 0 <= k < |entries[m].data.notes| ==>
          var copy := copied[m].data.notes[k];
          var original := entries[m].data.notes[k];
          fresh(copy) && copy.name == original.name && copy.required == original.required && copy.value == original.value
      {
        var e := entries[i];
        var notes := CopyNotes(e.data.notes);
        copied := copied + [e.(data := e.data.(notes := notes))];
        i := i + 1;
      }
      c := new CheckinParameters(copied, policiesEvaluated, policiesLoadError);
    }

    /** The dialog edits a note's value in place. */
    method SetNoteValue(i: nat, k: nat, v: Option<string>)
      requires i < |entries| && k < |entries[i].data.notes|
      modifies entries[i].data.notes[k]
      ensures entries[i].data.notes[k].value == v
    {
      entries[i].data.notes[k].value := v;
    }

    /** `setOverrideReason`. */
    method SetOverrideReason(reason: Option<string>)
      modifies this`overrideReason
      ensures overrideReason == reason
    {
      overrideReason := reason;
    }

    /** `getPolicyOverride`: the reason and the server's failures by policy name. */
    method GetPolicyOverride(server: ServerUri) returns (r: PolicyOverride)
      requires overrideReason.Some? ==> Listed(entries, server)
      ensures overrideReason.None? ==> r == NoReason
      ensures overrideReason.Some? ==> r == OverrideOf(overrideReason, DataOf(entries, server))
    {
      if overrideReason.None? {
        return NoReason;
      }
      var d := DataOf(entries, server);
      if d.failures.None? {
        return FailuresMissing;
      }
      var fs := d.failures.value;
      var failures: map<string, PolicyFailure> := map[];
      var k := 0;
      while k < |fs|
        invariant 0 <= k <= |fs|
        invariant failures == OverrideMap(fs[..k])
      {
        assert fs[..k + 1][..k] == fs[..k];
        failures := failures[FailurePolicyName(fs[k]) := fs[k]];
        k := k + 1;
      }
      assert fs[..k] == fs;
      r := Override(overrideReason.value, failures);
    }
  }

  /** Editing a note of a copy leaves every note value of the original as it was. */
  method EditCopiedNote(p: CheckinParameters, i: nat, k: nat, v: Option<string>) returns (c: CheckinParameters)
    requires p.Valid() && i < |p.entries| && k < |p.entries[i].data.notes|
    ensures fresh(c) && i < |c.entries| && k < |c.entries[i].data.notes| && c.entries[i].data.notes[k].value == v
    ensures p.entries == old(p.entries)
    ensures forall m, j :: 0 <= m < |p.entries| && 0 <= j < |p.entries[m].data.notes| ==>
      p.entries[m].data.notes[j].value == old(p.entries[m].data.notes[j].value)
  {
    c := p.CreateCopy();
    c.SetNoteValue(i, k, v);
  }
}
