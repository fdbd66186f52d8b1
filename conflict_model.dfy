/**
 * The conflict record reported by the server after a get, check-in or merge, and the
 * three classifiers that decide how it may be resolved: whether it can be merged
 * automatically, whether it involves a rename, and whether it involves an edit.
 */
module ConflictModel {
  import opened Wrappers

  /** The kinds of change a change-type mask can hold. */
  datatype ChangeType = Add | Edit | Encoding | Rename | Delete | Undelete | Branch | Merge | Lock

  /** A change-type mask: the set of change kinds that make up one change. */
  type ChangeTypeMask = set<ChangeType>

  /** The operation during which the server detected the conflict. */
  datatype ConflictType = Get | Checkin | MergeConflict

  datatype ItemType = Any | Folder | File

  /** A server item path in its repository form; absent where the server sends none. */
  type ItemPath = string

  type ConflictId = int

  /** The terminal disposition chosen for a conflict. */
  datatype Resolution = AcceptMerge | AcceptYours | AcceptTheirs

  /**
   * One conflict as the server reports it. `srclitem`/`tgtlitem` are the local paths of
   * the source and target items; `ychg`, `ylchg` and `bchg` are your change, your local
   * change and the base change; the version numbers are the base, your, target,
   * their-last-modified and your-last-modified versions.
   */
  datatype Conflict = Conflict(
    cid: ConflictId,
    ctype: ConflictType,
    srclitem: Option<ItemPath>,
    tgtlitem: Option<ItemPath>,
    ytype: ItemType,
    ychg: ChangeTypeMask,
    ylchg: ChangeTypeMask,
    bchg: ChangeTypeMask,
    bver: int,
    yver: int,
    tver: int,
    tlmver: int,
    ylmver: int,
    isforced: bool,
    isnamecflict: bool,
    isresolved: bool)

  /** `ChangeTypeMask.contains`. */
  predicate Contains(mask: ChangeTypeMask, t: ChangeType)
  {
    t in mask
  }

  /** `ChangeTypeMask.containsAny`: the mask holds at least one of the given kinds. */
  predicate ContainsAny(mask: ChangeTypeMask, kinds: set<ChangeType>)
  {
    exists t :: t in kinds && Contains(mask, t)
  }

  /**
   * A namespace conflict is a get or check-in conflict the server flagged as a name
   * clash; it can never be merged automatically.
   */
  predicate IsNamespaceConflict(c: Conflict)
  {
    (c.ctype == Get || c.ctype == Checkin) && c.isnamecflict
  }

  /** The first accepting branch of `canMerge`: both sides renamed or edited. */
  predicate RenamedOrEditedOnBothSides(c: Conflict)
  {
    !IsNamespaceConflict(c)
    && ContainsAny(c.ychg, {Rename, Edit})
    && ContainsAny(c.bchg, {Rename, Edit})
  }

  /**
   * The second accepting branch of `canMerge`: a merge conflict on a non-folder whose
   * base was edited, and where your side was edited locally, the merge is forced, or
   * either side moved on since the base.
   */
  predicate MergeOfEditedItem(c: Conflict)
  {
    c.ytype != Folder
    && !IsNamespaceConflict(c)
    && c.ctype == MergeConflict
    && Contains(c.bchg, Edit)
    && (Contains(c.ylchg, Edit) || c.isforced || c.tlmver != c.bver || c.ylmver != c.yver)
  }

  /**
   * `canMerge`: whether the conflict may be resolved by an automatic merge. It is
   * never mergeable without a source item, and otherwise exactly when one of the two
   * accepting branches holds.
   */
  function CanMerge(c: Conflict): (r: bool)
    ensures c.srclitem == None ==> !r
    ensures r <==> c.srclitem.Some? && (RenamedOrEditedOnBothSides(c) || MergeOfEditedItem(c))
  {
    if c.srclitem == None then
      false
    else
      var isNamespaceConflict := (c.ctype == Get || c.ctype == Checkin) && c.isnamecflict;
      if !isNamespaceConflict
         && (Contains(c.ychg, Rename) || Contains(c.ychg, Edit))
         && (Contains(c.bchg, Rename) || Contains(c.bchg, Edit))
      then
        true
      else if c.ytype != Folder && !isNamespaceConflict
              && c.ctype == MergeConflict && Contains(c.bchg, Edit)
      then
        Contains(c.ylchg, Edit) || c.isforced || c.tlmver != c.bver || c.ylmver != c.yver
      else
        false
  }

  /**
   * `isNameConflict`: the conflict involves a rename on your side or the base side, that
   * is, the two sides' changes taken together hold a rename; it is then a change that
   * `canMerge`'s first branch accepts on at least one side.
   */
  predicate IsNameConflict(c: Conflict): (r: bool)
    ensures r <==> Rename in c.ychg + c.bchg
    ensures r ==> ContainsAny(c.ychg, {Rename, Edit}) || ContainsAny(c.bchg, {Rename, Edit})
  {
    assert Rename in {Rename, Edit};
    Contains(c.ychg, Rename) || Contains(c.bchg, Rename)
  }

  /**
   * `isContentConflict`: the conflict involves an edit on your side or the base side, that
   * is, the two sides' changes taken together hold an edit; it is then a change that
   * `canMerge`'s first branch accepts on at least one side.
   */
  predicate IsContentConflict(c: Conflict): (r: bool)
    ensures r <==> Edit in c.ychg + c.bchg
    ensures r ==> ContainsAny(c.ychg, {Rename, Edit}) || ContainsAny(c.bchg, {Rename, Edit})
  {
    assert Edit in {Rename, Edit};
    Contains(c.ychg, Edit) || Contains(c.bchg, Edit)
  }

  /** A conflict with no source item is never mergeable. */
  lemma NoSourceNotMergeable(c: Conflict)
    requires c.srclitem == None
    ensures !CanMerge(c)
  {
  }

  /** A namespace conflict is never mergeable, whatever its masks and versions. */
  lemma NamespaceConflictNotMergeable(c: Conflict)
    requires IsNamespaceConflict(c)
    ensures !CanMerge(c)
  {
  }

  /** Outside a namespace conflict, a rename or edit on both your and the base side is mergeable. */
  lemma BothSidesChangedMergeable(c: Conflict)
    requires c.srclitem.Some? && !IsNamespaceConflict(c)
    requires Contains(c.ychg, Rename) || Contains(c.ychg, Edit)
    requires Contains(c.bchg, Rename) || Contains(c.bchg, Edit)
    ensures CanMerge(c)
  {
  }

  /**
   * A merge conflict on a non-folder with a source item and an edited base is mergeable
   * when your local change holds an edit, whatever the version numbers.
   */
  lemma LocalEditMergeable(c: Conflict)
    requires c.srclitem.Some? && c.ctype == MergeConflict && c.ytype != Folder
    requires Contains(c.bchg, Edit) && Contains(c.ylchg, Edit)
    ensures CanMerge(c)
  {
  }

  /**
   * For the same kind of conflict, a forced merge or a version that moved since the base
   * also makes it mergeable; with none of the three it is mergeable only through the
   * first branch.
   */
  lemma EditedBaseMergeCases(c: Conflict)
    requires c.srclitem.Some? && c.ctype == MergeConflict && c.ytype != Folder
    requires Contains(c.bchg, Edit)
    ensures c.isforced ==> CanMerge(c)
    ensures c.tlmver != c.bver || c.ylmver != c.yver ==> CanMerge(c)
    ensures !Contains(c.ylchg, Edit) && !c.isforced && c.tlmver == c.bver && c.ylmver == c.yver
            ==> (CanMerge(c) <==> ContainsAny(c.ychg, {Rename, Edit}))
  {
    if !Contains(c.ylchg, Edit) && !c.isforced && c.tlmver == c.bver && c.ylmver == c.yver {
      assert ContainsAny(c.bchg, {Rename, Edit}) by { assert Edit in {Rename, Edit}; }
      if ContainsAny(c.ychg, {Rename, Edit}) {
        var t :| t in {Rename, Edit} && Contains(c.ychg, t);
      }
    }
  }

  /** A folder can only be merged through the first branch, never through a forced merge or version skew. */
  lemma FolderNeedsBothSidesChanged(c: Conflict)
    requires c.ytype == Folder
    ensures CanMerge(c) <==> c.srclitem.Some? && RenamedOrEditedOnBothSides(c)
  {
  }

  /** A mergeable conflict is a rename or an edit on at least one of your and the base side. */
  lemma MergeableIsNameOrContentConflict(c: Conflict)
    requires CanMerge(c)
    ensures IsNameConflict(c) || IsContentConflict(c)
  {
    if RenamedOrEditedOnBothSides(c) {
      var t :| t in {Rename, Edit} && Contains(c.ychg, t);
    }
  }
}
