/**
 * The conflict registry and resolver: the map from each conflict to the workspace that
 * surfaced it, the filter that drops already-resolved conflicts, and the four terminal
 * operations (accept merge, accept yours, accept theirs, skip) with the common
 * resolution round-trip that submits a resolution and applies the server's answer.
 *
 * The server, the file-merge collaborators and the operation applier are not modelled:
 * what they return is an input to each operation, and what the resolver sends to them
 * is recorded in the helper's logs (`submitted`, `applied`, `updatedFiles`).
 */
module ConflictResolution {
  import opened Wrappers
  import opened ConflictModel

  /** The local workspace mapping a conflict belongs to. */
  datatype Workspace = Workspace(name: string, ownerName: string)

  /** One entry of the `workspace -> conflicts` map the helper is built from. */
  datatype WorkspaceConflicts = WorkspaceConflicts(workspace: Workspace, conflicts: seq<Conflict>)

  /** One registration, in the order the constructor performs them. */
  datatype Entry = Entry(conflict: Conflict, workspace: Workspace)

  // ---------------------------------------------------------------------------------
  // Flattening `workspace -> conflicts` into `conflict -> workspace`
  // ---------------------------------------------------------------------------------

  /** The registrations made for one workspace, in the order of its conflicts. */
  function GroupEntries(g: WorkspaceConflicts): (es: seq<Entry>)
    ensures |es| == |g.conflicts|
    ensures forall k :: 0 <= k < |es| ==> es[k] == Entry(g.conflicts[k], g.workspace)
  {
    seq(|g.conflicts|, k requires 0 <= k < |g.conflicts| => Entry(g.conflicts[k], g.workspace))
  }

  /** All registrations, workspace by workspace, in iteration order. */
  function Entries(groups: seq<WorkspaceConflicts>): seq<Entry>
  {
    if groups == [] then [] else Entries(groups[..|groups| - 1]) + GroupEntries(groups[|groups| - 1])
  }

  /** The conflict -> workspace map after the registrations `es`: a later `put` of the same conflict wins. */
  function WorkspaceMap(es: seq<Entry>): map<Conflict, Workspace>
  {
    if es == [] then map[]
    else WorkspaceMap(es[..|es| - 1])[es[|es| - 1].conflict := es[|es| - 1].workspace]
  }

  /** The conflicts listed by some workspace. */
  ghost function ListedConflicts(es: seq<Entry>): set<Conflict>
  {
    set k | 0 <= k < |es| :: es[k].conflict
  }

  /**
   * Every listed conflict is registered, nothing else is, and each is registered with a
   * workspace that lists it.
   */
  lemma {:induction false} RegisteredAreListed(es: seq<Entry>)
    ensures WorkspaceMap(es).Keys == ListedConflicts(es)
    ensures forall c :: c in WorkspaceMap(es) ==> Entry(c, WorkspaceMap(es)[c]) in es
  {
    if es != [] {
      var init := es[..|es| - 1];
      var last := es[|es| - 1];
      RegisteredAreListed(init);
      assert es == init + [last];
      assert ListedConflicts(es) == ListedConflicts(init) + {last.conflict} by {
        forall c | c in ListedConflicts(es) ensures c in ListedConflicts(init) + {last.conflict} {
          var k :| 0 <= k < |es| && es[k].conflict == c;
          if k < |es| - 1 { assert init[k] == es[k]; }
        }
        forall c | c in ListedConflicts(init) ensures c in ListedConflicts(es) {
          var k :| 0 <= k < |init| && init[k].conflict == c;
          assert es[k] == init[k];
        }
      }
    }
  }

  /**
   * The registration that counts is the last one of a conflict: a conflict listed at
   * position `k` and never again afterwards is registered with exactly that workspace.
   * In particular, a conflict listed by one workspace only maps to that workspace.
   */
  lemma {:induction false} LastRegistrationWins(es: seq<Entry>, k: nat)
    requires k < |es|
    requires forall l :: k < l < |es| ==> es[l].conflict != es[k].conflict
    ensures es[k].conflict in WorkspaceMap(es) && WorkspaceMap(es)[es[k].conflict] == es[k].workspace
  {
    if k < |es| - 1 {
      var init := es[..|es| - 1];
      assert init[k] == es[k];
      LastRegistrationWins(init, k);
    }
  }

  /** One more registration updates the map at its conflict. */
  lemma MapSnoc(es: seq<Entry>, e: Entry)
    ensures WorkspaceMap(es + [e]) == WorkspaceMap(es)[e.conflict := e.workspace]
  {
    assert (es + [e])[..|es|] == es;
  }

  /** The registrations of one more workspace follow those of the earlier ones. */
  lemma EntriesSnoc(groups: seq<WorkspaceConflicts>, i: nat)
    requires i < |groups|
    ensures Entries(groups[..i + 1]) == Entries(groups[..i]) + GroupEntries(groups[i])
  {
    assert groups[..i + 1][..i] == groups[..i];
  }

  /**
   * The constructor's nested loops: every conflict of every workspace is put into the
   * map, in iteration order.
   */
  method Flatten(groups: seq<WorkspaceConflicts>) returns (workspaceOf: map<Conflict, Workspace>)
    ensures workspaceOf == WorkspaceMap(Entries(groups))
    ensures workspaceOf.Keys == ListedConflicts(Entries(groups))
    ensures forall c :: c in workspaceOf ==> Entry(c, workspaceOf[c]) in Entries(groups)
  {
    workspaceOf := map[];
    var i := 0;
    while i < |groups|
      invariant 0 <= i <= |groups|
      invariant workspaceOf == WorkspaceMap(Entries(groups[..i]))
    {
      var g := groups[i];
      ghost var done := Entries(groups[..i]);
      ghost var mine := GroupEntries(g);
      assert done + mine[..0] == done;
      var j := 0;
      while j < |g.conflicts|
        invariant 0 <= j <= |g.conflicts|
        invariant workspaceOf == WorkspaceMap(done + mine[..j])
      {
        var c := g.conflicts[j];
        assert done + mine[..j + 1] == (done + mine[..j]) + [Entry(c, g.workspace)];
        MapSnoc(done + mine[..j], Entry(c, g.workspace));
        workspaceOf := workspaceOf[c := g.workspace];
        j := j + 1;
      }
      assert mine[..j] == mine;
      EntriesSnoc(groups, i);
      i := i + 1;
    }
    assert groups[..i] == groups;
    RegisteredAreListed(Entries(groups));
  }

  // ---------------------------------------------------------------------------------
  // Filtering resolved conflicts
  // ---------------------------------------------------------------------------------

  /** The conflicts whose resolved flag is false, in input order. */
  function Unresolved(cs: seq<Conflict>): seq<Conflict>
  {
    if cs == [] then []
    else if cs[|cs| - 1].isresolved then Unresolved(cs[..|cs| - 1])
    else Unresolved(cs[..|cs| - 1]) + [cs[|cs| - 1]]
  }

  /** A conflict is kept exactly when it occurs in the input and is not resolved. */
  lemma {:induction false} UnresolvedMembers(cs: seq<Conflict>)
    ensures forall c :: c in Unresolved(cs) <==> c in cs && !c.isresolved
    ensures |Unresolved(cs)| <= |cs|
  {
    if cs != [] {
      var init := cs[..|cs| - 1];
      UnresolvedMembers(init);
      assert cs == init + [cs[|cs| - 1]];
    }
  }

  /** The server never reports an unresolved conflict with id 0. */
  predicate UnresolvedHaveIds(cs: seq<Conflict>)
  {
    forall k :: 0 <= k < |cs| && !cs[k].isresolved ==> cs[k].cid != 0
  }

  /**
   * `getUnresolvedConflicts`: keeps the unresolved conflicts in order; the assertion on
   * each kept conflict's id throws when the server broke its promise.
   */
  method GetUnresolvedConflicts(conflicts: seq<Conflict>) returns (r: Result<seq<Conflict>, ResolveError>)
    ensures r.Success? <==> UnresolvedHaveIds(conflicts)
    ensures r.Success? ==> r.value == Unresolved(conflicts)
    ensures r.Failure? ==> r.error == AssertionFailed
  {
    var result: seq<Conflict> := [];
    var i := 0;
    while i < |conflicts|
      invariant 0 <= i <= |conflicts|
      invariant result == Unresolved(conflicts[..i])
      invariant UnresolvedHaveIds(conflicts[..i])
    {
      var c := conflicts[i];
      assert conflicts[..i + 1][..i] == conflicts[..i];
      if !c.isresolved {
        if c.cid == 0 {
          return Failure(AssertionFailed);
        }
        result := result + [c];
      }
      i := i + 1;
    }
    assert conflicts[..i] == conflicts;
    return Success(result);
  }

  // ---------------------------------------------------------------------------------
  // The resolution round-trip
  // ---------------------------------------------------------------------------------

  /** An operation the server asks the client to perform (fetch, revert, rename). */
  datatype GetOperation = GetOperation(item: ItemPath, version: int)

  /**
   * One batch of operations from the server's answer, together with the errors that
   * applying it reports (the applier is outside the model, so its report is an input).
   */
  datatype OperationBatch = OperationBatch(operations: seq<GetOperation>, applyErrors: seq<string>)

  /** The server's answer to a resolution: the get operations and the undo operations, each possibly absent. */
  datatype ResolveResponse = ResolveResponse(getOperations: Option<OperationBatch>, undoOperations: Option<OperationBatch>)

  /** The server's reply: an answer, or the transport or server error the call throws. */
  type ServerReply = Result<ResolveResponse, string>

  datatype LockLevel = Unchanged | Checkin | CheckOut

  /** The parameters of `resolveConflict` as sent to the server. */
  datatype ResolveRequest = ResolveRequest(
    workspace: Workspace,
    cid: ConflictId,
    resolution: Resolution,
    lockLevel: LockLevel,
    encoding: int,
    newPath: Option<ItemPath>)

  /** The encoding sentinel every resolution sends. */
  const UnchangedEncoding: int := -2

  /** How the applier treats local files: overwrite them, or merge into them. */
  datatype DownloadMode = Force | MergeMode

  datatype BatchKind = GetBatch | UndoBatch

  /** One invocation of the operation applier. `recordsUpdates` says whether the updated-files ledger is passed along. */
  datatype ApplyCall = ApplyCall(workspace: Workspace, kind: BatchKind, operations: seq<GetOperation>, mode: DownloadMode, recordsUpdates: bool)

  /** An entry of the externally owned updated-files ledger. */
  datatype UpdatedFile = Skipped(path: Option<ItemPath>) | Merged(path: Option<ItemPath>)

  datatype ResolveError =
    | AssertionFailed               // TFSVcs.assertTrue threw
    | UnknownConflict               // the registry has no workspace for the conflict (a null dereference)
    | ServerError(message: string)  // resolveConflict threw
    | ApplyErrors(errors: seq<string>)
    | RevisionsNotLoaded(message: string)
    | FileMissing(path: Option<ItemPath>)
    | MergeIoError(message: string)

  /** The applier calls a resolution makes, given the server's answer, in order. */
  function AppliedBatches(w: Workspace, resolution: Resolution, resp: ResolveResponse, recordsUpdates: bool): (calls: seq<ApplyCall>)
    ensures |calls| <= 2
    ensures forall k :: 0 <= k < |calls| ==> calls[k].workspace == w && calls[k].recordsUpdates == recordsUpdates
    // get operations are forced exactly for AcceptTheirs; undo operations always are
    ensures forall k :: 0 <= k < |calls| ==>
      calls[k].mode == (if calls[k].kind == UndoBatch || resolution == Resolution.AcceptTheirs then Force else MergeMode)
    // the get batch comes first, and the undo batch is attempted only if the get batch applied cleanly
    ensures resp.getOperations.Some? <==> |calls| > 0 && calls[0].kind == GetBatch
    ensures resp.getOperations.Some? ==> calls[0].operations == resp.getOperations.value.operations
    ensures (|calls| > 0 && calls[|calls| - 1].kind == UndoBatch)
        <==> resp.undoOperations.Some? && !(resp.getOperations.Some? && |resp.getOperations.value.applyErrors| > 0)
  {
    var getMode := if resolution == Resolution.AcceptTheirs then Force else MergeMode;
    match resp.getOperations
    case Some(b) =>
      [ApplyCall(w, GetBatch, b.operations, getMode, recordsUpdates)]
      + (if |b.applyErrors| > 0 || resp.undoOperations.None? then []
         else [ApplyCall(w, UndoBatch, resp.undoOperations.value.operations, Force, recordsUpdates)])
    case None =>
      if resp.undoOperations.None? then []
      else [ApplyCall(w, UndoBatch, resp.undoOperations.value.operations, Force, recordsUpdates)]
  }

  /** The error raised while applying the server's answer: the first batch that reported errors. */
  function ApplyOutcome(resp: ResolveResponse): (r: Outcome<ResolveError>)
    ensures r.Pass? <==>
      (resp.getOperations.None? || resp.getOperations.value.applyErrors == [])
      && (resp.undoOperations.None? || resp.undoOperations.value.applyErrors == [])
    ensures r.Fail? ==> r.error.ApplyErrors? && r.error.errors != []
  {
    if resp.getOperations.Some? && resp.getOperations.value.applyErrors != [] then
      Fail(ApplyErrors(resp.getOperations.value.applyErrors))
    else if resp.undoOperations.Some? && resp.undoOperations.value.applyErrors != [] then
      Fail(ApplyErrors(resp.undoOperations.value.applyErrors))
    else
      Pass
  }

  /** The local path of a conflict, preferring the source item. */
  function SourceOrTarget(c: Conflict): (p: Option<ItemPath>)
    ensures c.srclitem.Some? ==> p == c.srclitem
    ensures c.srclitem.None? ==> p == c.tgtlitem
    ensures p.None? <==> c.srclitem.None? && c.tgtlitem.None?
  {
    if c.srclitem.Some? then c.srclitem else c.tgtlitem
  }

  /** The local path of a conflict, preferring the target item. */
  function TargetOrSource(c: Conflict): (p: Option<ItemPath>)
    ensures c.tgtlitem.Some? ==> p == c.tgtlitem
    ensures c.tgtlitem.None? ==> p == c.srclitem
    ensures p.None? <==> c.srclitem.None? && c.tgtlitem.None?
  {
    if c.tgtlitem.Some? then c.tgtlitem else c.srclitem
  }

  /** What the collaborators of `acceptMerge` answer, in the order they are consulted. */
  datatype MergeInputs = MergeInputs(
    revisions: Outcome<string>,          // loading a file's base/your/their contents, or the error it throws
    mergedName: Option<ItemPath>,        // the name merger's local path; None when the user cancels
    localFileFound: bool,                // whether the conflicting local file exists
    contentMerge: Result<bool, string>,  // whether the content merger fully merged, or its I/O error
    reply: ServerReply)                  // the server's answer to the resolution

  /** The local name `acceptMerge` resolves with: the merged name of a name conflict, else the target item. */
  function MergedLocalName(c: Conflict, inputs: MergeInputs): Option<ItemPath>
  {
    if IsNameConflict(c) then inputs.mergedName else c.tgtlitem
  }

  /** The collaborators of `acceptMerge` let it go on to resolve: no cancellation, no error, the content fully merged. */
  predicate MergeCompleted(c: Conflict, inputs: MergeInputs)
  {
    && (IsNameConflict(c) ==> inputs.mergedName.Some?)
    && (IsContentConflict(c) ==>
          inputs.revisions.Pass? && c.ytype == File && inputs.localFileFound && inputs.contentMerge == Success(true))
  }

  /**
   * The collaborators of `acceptMerge` end it without resolving and without an error:
   * the user cancels the name merge, or the content merge does not complete.
   */
  predicate MergeDeclined(c: Conflict, inputs: MergeInputs, registered: bool)
  {
    && !(IsContentConflict(c) && c.ytype == File && inputs.revisions.Fail?)
    && ((IsNameConflict(c) && inputs.mergedName.None?)
        || ((IsNameConflict(c) ==> registered)
            && IsContentConflict(c) && c.ytype == File && inputs.localFileFound && inputs.contentMerge == Success(false)))
  }

  /**
   * `ResolveConflictHelper`: the registry of unresolved conflicts and the logs of what
   * resolving them sent to the server, to the operation applier and to the
   * updated-files ledger.
   */
  class ResolveConflictHelper {
    /** `myConflict2Workspace`: the workspace each unresolved conflict belongs to. */
    var workspaceOf: map<Conflict, Workspace>
    /** Whether an updated-files ledger was supplied (`myUpdatedFiles != null`). */
    const tracksUpdates: bool
    /** The ledger's entries, in the order they were added. */
    var updatedFiles: seq<UpdatedFile>
    /** Every resolution sent to the server. */
    var submitted: seq<ResolveRequest>
    /** Every batch handed to the operation applier. */
    var applied: seq<ApplyCall>

    /** The conflict is tracked by the registry. */
    predicate Registered(c: Conflict)
      reads this
    {
      c in workspaceOf
    }

    constructor (groups: seq<WorkspaceConflicts>, tracksUpdates: bool)
      ensures workspaceOf == WorkspaceMap(Entries(groups))
      ensures workspaceOf.Keys == ListedConflicts(Entries(groups))
      ensures forall c :: c in workspaceOf ==> Entry(c, workspaceOf[c]) in Entries(groups)
      ensures this.tracksUpdates == tracksUpdates
      ensures updatedFiles == [] && submitted == [] && applied == []
    {
      var w := Flatten(groups);
      workspaceOf := w;
      this.tracksUpdates := tracksUpdates;
      updatedFiles, submitted, applied := [], [], [];
    }

    /** `getConflicts`: the tracked conflicts. */
    function Conflicts(): (cs: set<Conflict>)
      reads this
      ensures forall c :: c in cs <==> Registered(c)
    {
      workspaceOf.Keys
    }

    /**
     * `conflictResolved`: submit the resolution, apply the returned get operations and
     * then the undo operations, and drop the conflict from the registry only if all of
     * that succeeded.
     */
    method ConflictResolved(c: Conflict, resolution: Resolution, newLocalPath: Option<ItemPath>, sendPath: bool, reply: ServerReply)
      returns (r: Outcome<ResolveError>)
      modifies this
      ensures !old(Registered(c)) ==>
        r == Fail(UnknownConflict) && unchanged(this)
      ensures old(Registered(c)) ==>
        var w := old(workspaceOf[c]);
        submitted == old(submitted) + [ResolveRequest(w, c.cid, resolution, Unchanged, UnchangedEncoding,
                                                      if sendPath then newLocalPath else None)]
      ensures old(Registered(c)) && reply.Failure? ==>
        r == Fail(ServerError(reply.error))
        && applied == old(applied) && updatedFiles == old(updatedFiles) && workspaceOf == old(workspaceOf)
      ensures old(Registered(c)) && reply.Success? ==>
        && applied == old(applied) + AppliedBatches(old(workspaceOf[c]), resolution, reply.value,
                                                    tracksUpdates && resolution != Resolution.AcceptMerge)
        && r == ApplyOutcome(reply.value)
      ensures r.Pass? ==> old(Registered(c)) && workspaceOf == old(workspaceOf) - {c}
      ensures r.Pass? ==> updatedFiles == old(updatedFiles) + (if resolution == Resolution.AcceptMerge && tracksUpdates then [Merged(newLocalPath)] else [])
      ensures r.Fail? ==> workspaceOf == old(workspaceOf) && updatedFiles == old(updatedFiles)
    {
      if c !in workspaceOf {
        return Fail(UnknownConflict);
      }
      var w := workspaceOf[c];
      submitted := submitted + [ResolveRequest(w, c.cid, resolution, Unchanged, UnchangedEncoding,
                                               if sendPath then newLocalPath else None)];
      if reply.Failure? {
        return Fail(ServerError(reply.error));
      }
      r := ApplyReply(w, resolution, reply.value);
      if r.Fail? {
        return;
      }
      if resolution == Resolution.AcceptMerge && tracksUpdates {
        updatedFiles := updatedFiles + [Merged(newLocalPath)];
      }
      workspaceOf := workspaceOf - {c};
      return Pass;
    }

    /**
     * Hands the server's get batch, then its undo batch, to the operation applier; the
     * first batch with apply errors ends the resolution with those errors.
     */
    method ApplyReply(w: Workspace, resolution: Resolution, resp: ResolveResponse) returns (r: Outcome<ResolveError>)
      modifies this
      ensures applied == old(applied) + AppliedBatches(w, resolution, resp, tracksUpdates && resolution != Resolution.AcceptMerge)
      ensures r == ApplyOutcome(resp)
      ensures workspaceOf == old(workspaceOf)
      ensures updatedFiles == old(updatedFiles) && submitted == old(submitted)
    {
      var records := tracksUpdates && resolution != Resolution.AcceptMerge;
      if resp.getOperations.Some? {
        var mode := if resolution == Resolution.AcceptTheirs then Force else MergeMode;
        applied := applied + [ApplyCall(w, GetBatch, resp.getOperations.value.operations, mode, records)];
        if resp.getOperations.value.applyErrors != [] {
          return Fail(ApplyErrors(resp.getOperations.value.applyErrors));
        }
      }
      if resp.undoOperations.Some? {
        applied := applied + [ApplyCall(w, UndoBatch, resp.undoOperations.value.operations, Force, records)];
        if resp.undoOperations.value.applyErrors != [] {
          return Fail(ApplyErrors(resp.undoOperations.value.applyErrors));
        }
      }
      return Pass;
    }

    /**
     * `acceptMerge`: merge names and contents through the collaborators and resolve with
     * AcceptMerge. `Success(true)` means resolved; `Success(false)` means the user cancelled
     * the name merge or the content merge did not complete, and nothing changed.
     */
    method AcceptMerge(c: Conflict, inputs: MergeInputs) returns (r: Result<bool, ResolveError>)
      modifies this
      ensures !CanMerge(c) ==> r == Failure(AssertionFailed) && unchanged(this)
      ensures CanMerge(c) && IsContentConflict(c) && c.ytype == File && inputs.revisions.Fail? ==>
        r == Failure(RevisionsNotLoaded(inputs.revisions.error)) && unchanged(this)
      ensures r == Success(true) <==>
        && CanMerge(c) && old(Registered(c)) && MergeCompleted(c, inputs)
        && inputs.reply.Success? && ApplyOutcome(inputs.reply.value).Pass?
      ensures r == Success(false) <==> CanMerge(c) && MergeDeclined(c, inputs, old(Registered(c)))
      ensures r == Success(false) ==> unchanged(this)
      ensures r != Success(true) ==> workspaceOf == old(workspaceOf) && updatedFiles == old(updatedFiles)
      ensures r == Success(true) ==>
        && workspaceOf == old(workspaceOf) - {c}
        && submitted == old(submitted) + [ResolveRequest(old(workspaceOf[c]), c.cid, Resolution.AcceptMerge, Unchanged, UnchangedEncoding,
                                                         if IsNameConflict(c) then inputs.mergedName else None)]
        && applied == old(applied) + AppliedBatches(old(workspaceOf[c]), Resolution.AcceptMerge, inputs.reply.value, false)
        && updatedFiles == old(updatedFiles) + (if tracksUpdates then [Merged(MergedLocalName(c, inputs))] else [])
    {
      if !CanMerge(c) {
        return Failure(AssertionFailed);
      }
      if IsContentConflict(c) && c.ytype == File && inputs.revisions.Fail? {
        return Failure(RevisionsNotLoaded(inputs.revisions.error));
      }
      var localName: Option<ItemPath>;
      if IsNameConflict(c) {
        if inputs.mergedName.None? {
          return Success(false);
        }
        if c !in workspaceOf {
          return Failure(UnknownConflict);
        }
        localName := inputs.mergedName;
      } else {
        localName := c.tgtlitem;
      }
      var resolved := true;
      if IsContentConflict(c) {
        if c.ytype != File {
          return Failure(AssertionFailed);
        }
        if !inputs.localFileFound {
          return Failure(FileMissing(SourceOrTarget(c)));
        }
        if inputs.contentMerge.Failure? {
          return Failure(MergeIoError(inputs.contentMerge.error));
        }
        resolved := inputs.contentMerge.value;
      }
      if !resolved {
        return Success(false);
      }
      var outcome := ConflictResolved(c, Resolution.AcceptMerge, localName, IsNameConflict(c), inputs.reply);
      if outcome.Fail? {
        return Failure(outcome.error);
      }
      return Success(true);
    }

    /** `acceptYours`: resolve keeping the local version, then record the item as skipped. */
    method AcceptYours(c: Conflict, reply: ServerReply) returns (r: Outcome<ResolveError>)
      modifies this
      ensures r.Pass? <==> old(Registered(c)) && reply.Success? && ApplyOutcome(reply.value).Pass?
      ensures r.Pass? ==> workspaceOf == old(workspaceOf) - {c}
      ensures r.Pass? ==> updatedFiles == old(updatedFiles) + (if tracksUpdates then [Skipped(SourceOrTarget(c))] else [])
      ensures r.Fail? ==> workspaceOf == old(workspaceOf) && updatedFiles == old(updatedFiles)
      ensures !old(Registered(c)) ==> r == Fail(UnknownConflict) && unchanged(this)
      ensures old(Registered(c)) ==>
        submitted == old(submitted) + [ResolveRequest(old(workspaceOf[c]), c.cid, Resolution.AcceptYours, Unchanged, UnchangedEncoding, None)]
      ensures old(Registered(c)) && reply.Success? ==>
        applied == old(applied) + AppliedBatches(old(workspaceOf[c]), Resolution.AcceptYours, reply.value, tracksUpdates)
      ensures old(Registered(c)) && reply.Failure? ==> r == Fail(ServerError(reply.error)) && applied == old(applied)
    {
      var localPath := SourceOrTarget(c);
      r := ConflictResolved(c, Resolution.AcceptYours, c.tgtlitem, false, reply);
      if r.Pass? && tracksUpdates {
        updatedFiles := updatedFiles + [Skipped(localPath)];
      }
    }

    /** `acceptTheirs`: resolve taking the server version; the returned get operations are forced. */
    method AcceptTheirs(c: Conflict, reply: ServerReply) returns (r: Outcome<ResolveError>)
      modifies this
      ensures r.Pass? <==> old(Registered(c)) && reply.Success? && ApplyOutcome(reply.value).Pass?
      ensures r.Pass? ==> workspaceOf == old(workspaceOf) - {c}
      ensures r.Fail? ==> workspaceOf == old(workspaceOf)
      ensures updatedFiles == old(updatedFiles)
      ensures !old(Registered(c)) ==> r == Fail(UnknownConflict) && unchanged(this)
      ensures old(Registered(c)) ==>
        submitted == old(submitted) + [ResolveRequest(old(workspaceOf[c]), c.cid, Resolution.AcceptTheirs, Unchanged, UnchangedEncoding, None)]
      ensures old(Registered(c)) && reply.Success? ==>
        applied == old(applied) + AppliedBatches(old(workspaceOf[c]), Resolution.AcceptTheirs, reply.value, tracksUpdates)
      ensures old(Registered(c)) && reply.Failure? ==> r == Fail(ServerError(reply.error)) && applied == old(applied)
    {
      var localPath := TargetOrSource(c);
      r := ConflictResolved(c, Resolution.AcceptTheirs, localPath, false, reply);
    }

    /** `skip`: record the item as skipped; the server is not contacted and the registry is untouched. */
    method Skip(c: Conflict)
      modifies this`updatedFiles
      ensures updatedFiles == old(updatedFiles) + (if tracksUpdates then [Skipped(SourceOrTarget(c))] else [])
    {
      if tracksUpdates {
        updatedFiles := updatedFiles + [Skipped(SourceOrTarget(c))];
      }
    }
  }
}
