/**
 * Check-in notes: the server-declared note fields, their factorisation across team
 * projects, their order, and the check that every required note has a value.
 */
module CheckinNotes {
  import opened Wrappers

  /** A Java `int`. */
  type Int32 = x: int | -0x8000_0000 <= x < 0x8000_0000

  /** A note field as one team project declares it. */
  datatype NoteDefinition = NoteDefinition(name: string, required: bool, displayOrder: Int32)

  /** `CheckinNote`: a note field of the pending check-in; the commit dialog edits its value. */
  class CheckinNote {
    const name: string
    const required: bool
    var value: Option<string>

    constructor (name: string, required: bool)
      ensures this.name == name && this.required == required && value == None
    {
      this.name := name;
      this.required := required;
      value := None;
    }
  }

  // ---------------------------------------------------------------------------------
  // Display-order comparison
  // ---------------------------------------------------------------------------------

  /** Java `int` arithmetic: the mathematical value wrapped into 32 bits. */
  function Wrap32(x: int): (r: Int32)
    ensures (r - x) % 0x1_0000_0000 == 0
  {
    var m := x % 0x1_0000_0000;
    if m < 0x8000_0000 then m else m - 0x1_0000_0000
  }

  /** The comparator as written, `o1.get_do() - o2.get_do()`, evaluated in Java `int` arithmetic. */
  function CompareDisplayOrderAsWritten(a: Int32, b: Int32): Int32
  {
    Wrap32(a - b)
  }

  /** The as-written comparator puts the smallest display order after 1: the subtraction overflows. */
  lemma AsWrittenComparatorMisorders()
    ensures CompareDisplayOrderAsWritten(-0x8000_0000, 1) > 0
  {
    assert Wrap32(-0x8000_0000 - 1) == 0x7FFF_FFFF;
  }

  /** The as-written comparator is right whenever the subtraction does not overflow. */
  lemma AsWrittenComparatorWithoutOverflow(a: Int32, b: Int32)
    requires -0x8000_0000 <= a - b < 0x8000_0000
    ensures CompareDisplayOrderAsWritten(a, b) == a - b
  {
  }

  /** The comparator the sort evidently intends, `Integer.compare` on display orders. */
  function CompareDisplayOrder(a: Int32, b: Int32): (r: int)
    ensures r < 0 <==> a < b
    ensures r == 0 <==> a == b
    ensures r > 0 <==> a > b
  {
    if a < b then -1 else if a == b then 0 else 1
  }

  /** Definitions in non-decreasing display order. */
  ghost predicate SortedByDisplayOrder(ds: seq<NoteDefinition>)
  {
    forall i, j :: 0 <= i < j < |ds| ==> CompareDisplayOrder(ds[i].displayOrder, ds[j].displayOrder) <= 0
  }

  // ---------------------------------------------------------------------------------
  // Factorisation by name
  // ---------------------------------------------------------------------------------

  /**
   * The name -> definition map built over the definitions of all team projects: a later
   * definition of a name replaces the stored one only if it is required.
   */
  function Factorized(defs: seq<NoteDefinition>): map<string, NoteDefinition>
  {
    if defs == [] then map[]
    else
      var m := Factorized(defs[..|defs| - 1]);
      var d := defs[|defs| - 1];
      if d.name !in m || d.required then m[d.name := d] else m
  }

  ghost function DefinedNames(defs: seq<NoteDefinition>): set<string>
  {
    set k | 0 <= k < |defs| :: defs[k].name
  }

  /** Every declared name is kept once, with one of its own definitions. */
  lemma {:induction false} FactorizedKeys(defs: seq<NoteDefinition>)
    ensures Factorized(defs).Keys == DefinedNames(defs)
    ensures forall n :: n in Factorized(defs) ==> Factorized(defs)[n].name == n && Factorized(defs)[n] in defs
  {
    if defs != [] {
      var init := defs[..|defs| - 1];
      FactorizedKeys(init);
      assert defs == init + [defs[|defs| - 1]];
      assert DefinedNames(defs) == DefinedNames(init) + {defs[|defs| - 1].name} by {
        forall n | n in DefinedNames(defs) ensures n in DefinedNames(init) + {defs[|defs| - 1].name} {
          var k :| 0 <= k < |defs| && defs[k].name == n;
          if k < |defs| - 1 { assert init[k] == defs[k]; }
        }
        forall n | n in DefinedNames(init) ensures n in DefinedNames(defs) {
          var k :| 0 <= k < |init| && init[k].name == n;
          assert defs[k] == init[k];
        }
      }
    }
  }

  /**
   * A required definition wins: the last required definition of a name is the one kept,
   * whatever non-required definitions of that name come before or after it.
   */
  lemma {:induction false} LastRequiredWins(defs: seq<NoteDefinition>, k: nat)
    requires k < |defs| && defs[k].required
    requires forall l :: k < l < |defs| && defs[l].name == defs[k].name ==> !defs[l].required
    ensures defs[k].name in Factorized(defs) && Factorized(defs)[defs[k].name] == defs[k]
  {
    if k < |defs| - 1 {
      var init := defs[..|defs| - 1];
      assert init[k] == defs[k];
      LastRequiredWins(init, k);
    }
  }

  /** Without any required definition of a name, the first definition of it is kept. */
  lemma {:induction false} FirstKeptWhenNoneRequired(defs: seq<NoteDefinition>, k: nat)
    requires k < |defs|
    requires forall l :: 0 <= l < k ==> defs[l].name != defs[k].name
    requires forall l :: 0 <= l < |defs| && defs[l].name == defs[k].name ==> !defs[l].required
    ensures defs[k].name in Factorized(defs) && Factorized(defs)[defs[k].name] == defs[k]
  {
    if k < |defs| - 1 {
      var init := defs[..|defs| - 1];
      assert init[k] == defs[k];
      FirstKeptWhenNoneRequired(init, k);
    } else {
      FactorizedKeys(defs[..k]);
      assert defs[..|defs| - 1] == defs[..k];
    }
  }

  /** A name is required in the result as soon as one team project requires it. */
  lemma RequiredIfAnyRequired(defs: seq<NoteDefinition>, k: nat)
    requires k < |defs| && defs[k].required
    ensures defs[k].name in Factorized(defs) && Factorized(defs)[defs[k].name].required
  {
    var last := k;
    var l := k + 1;
    while l < |defs|
      invariant k <= last < l <= |defs|
      invariant defs[last].required && defs[last].name == defs[k].name
      invariant forall j :: last < j < l && defs[j].name == defs[k].name ==> !defs[j].required
    {
      if defs[l].name == defs[k].name && defs[l].required {
        last := l;
      }
      l := l + 1;
    }
    LastRequiredWins(defs, last);
  }

  /**
   * The notes of a server: one definition per declared name, the one factorisation keeps,
   * in display order.
   */
  ghost predicate IsFactorization(sorted: seq<NoteDefinition>, defs: seq<NoteDefinition>)
  {
    && (forall k :: 0 <= k < |sorted| ==> sorted[k].name in Factorized(defs) && Factorized(defs)[sorted[k].name] == sorted[k])
    && (forall n :: n in DefinedNames(defs) ==> exists k :: 0 <= k < |sorted| && sorted[k].name == n)
    && (forall i, j :: 0 <= i < j < |sorted| ==> sorted[i].name != sorted[j].name)
    && SortedByDisplayOrder(sorted)
  }

  /** A non-empty set of names has one whose definition comes first in display order. */
  lemma {:induction false} EarliestExists(m: map<string, NoteDefinition>, names: set<string>)
    requires names != {} && names <= m.Keys
    ensures exists n :: n in names && forall o :: o in names ==> CompareDisplayOrder(m[n].displayOrder, m[o].displayOrder) <= 0
  {
    var x :| x in names;
    if names != {x} {
      var rest := names - {x};
      EarliestExists(m, rest);
      var y :| y in rest && forall o :: o in rest ==> CompareDisplayOrder(m[y].displayOrder, m[o].displayOrder) <= 0;
      if m[x].displayOrder < m[y].displayOrder {
        assert forall o :: o in names ==> CompareDisplayOrder(m[x].displayOrder, m[o].displayOrder) <= 0;
      } else {
        assert forall o :: o in names ==> CompareDisplayOrder(m[y].displayOrder, m[o].displayOrder) <= 0;
      }
    } else {
      assert forall o :: o in names ==> o == x;
    }
  }

  /** The state of the sort after some definitions have been placed: what is placed is sorted and precedes what remains. */
  ghost predicate SortProgress(m: map<string, NoteDefinition>, sorted: seq<NoteDefinition>, remaining: set<string>)
  {
    && remaining <= m.Keys
    && (forall k :: 0 <= k < |sorted| ==> sorted[k].name in m && m[sorted[k].name] == sorted[k] && sorted[k].name !in remaining)
    && (forall n :: n in m && n !in remaining ==> exists k :: 0 <= k < |sorted| && sorted[k].name == n)
    && (forall i, j :: 0 <= i < j < |sorted| ==> sorted[i].name != sorted[j].name)
    && SortedByDisplayOrder(sorted)
    && (forall k, n :: 0 <= k < |sorted| && n in remaining ==> CompareDisplayOrder(sorted[k].displayOrder, m[n].displayOrder) <= 0)
  }

  /** Placing a remaining definition that comes first in display order keeps the sort's progress. */
  lemma PlaceEarliest(m: map<string, NoteDefinition>, sorted: seq<NoteDefinition>, remaining: set<string>, n: string)
    requires forall o :: o in m ==> m[o].name == o
    requires SortProgress(m, sorted, remaining)
    requires n in remaining
    requires forall o :: o in remaining ==> CompareDisplayOrder(m[n].displayOrder, m[o].displayOrder) <= 0
    ensures SortProgress(m, sorted + [m[n]], remaining - {n})
  {
    PlacedFromMap(m, sorted, remaining, n);
    PlacedCovers(m, sorted, remaining, n);
    PlacedInOrder(m, sorted, remaining, n);
    PlacedPrecedesRest(m, sorted, remaining, n);
  }

  lemma PlacedFromMap(m: map<string, NoteDefinition>, sorted: seq<NoteDefinition>, remaining: set<string>, n: string)
    requires forall o :: o in m ==> m[o].name == o
    requires remaining <= m.Keys && n in remaining
    requires forall k :: 0 <= k < |sorted| ==> sorted[k].name in m && m[sorted[k].name] == sorted[k] && sorted[k].name !in remaining
    ensures var next := sorted + [m[n]];
      forall k :: 0 <= k < |next| ==> next[k].name in m && m[next[k].name] == next[k] && next[k].name !in remaining - {n}
  {
    var next := sorted + [m[n]];
    forall k | 0 <= k < |next|
      ensures next[k].name in m && m[next[k].name] == next[k] && next[k].name !in remaining - {n}
    {
      if k < |sorted| {
        assert next[k] == sorted[k];
      } else {
        assert next[k] == m[n];
      }
    }
  }

  lemma PlacedCovers(m: map<string, NoteDefinition>, sorted: seq<NoteDefinition>, remaining: set<string>, n: string)
    requires forall o :: o in m ==> m[o].name == o
    requires n in remaining && n in m
    requires forall o :: o in m && o !in remaining ==> exists k :: 0 <= k < |sorted| && sorted[k].name == o
    ensures var next := sorted + [m[n]];
      forall o :: o in m && o !in remaining - {n} ==> exists k :: 0 <= k < |next| && next[k].name == o
  {
    var next := sorted + [m[n]];
    forall o | o in m && o !in remaining - {n}
      ensures exists k :: 0 <= k < |next| && next[k].name == o
    {
      if o == n {
        assert next[|sorted|].name == o;
      } else {
        var k :| 0 <= k < |sorted| && sorted[k].name == o;
        assert next[k].name == o;
      }
    }
  }

  lemma PlacedInOrder(m: map<string, NoteDefinition>, sorted: seq<NoteDefinition>, remaining: set<string>, n: string)
    requires forall o :: o in m ==> m[o].name == o
    requires n in remaining && n in m
    requires forall k :: 0 <= k < |sorted| ==> sorted[k].name !in remaining
    requires forall i, j :: 0 <= i < j < |sorted| ==> sorted[i].name != sorted[j].name
    requires SortedByDisplayOrder(sorted)
    requires forall k :: 0 <= k < |sorted| ==> CompareDisplayOrder(sorted[k].displayOrder, m[n].displayOrder) <= 0
    ensures var next := sorted + [m[n]];
      && (forall i, j :: 0 <= i < j < |next| ==> next[i].name != next[j].name)
      && SortedByDisplayOrder(next)
  {
    var next := sorted + [m[n]];
    forall i, j | 0 <= i < j < |next|
      ensures next[i].name != next[j].name && CompareDisplayOrder(next[i].displayOrder, next[j].displayOrder) <= 0
    {
      assert next[i] == sorted[i];
      if j < |sorted| {
        assert next[j] == sorted[j];
      } else {
        assert next[j] == m[n];
      }
    }
  }

  lemma PlacedPrecedesRest(m: map<string, NoteDefinition>, sorted: seq<NoteDefinition>, remaining: set<string>, n: string)
    requires remaining <= m.Keys && n in remaining
    requires forall k, o :: 0 <= k < |sorted| && o in remaining ==> CompareDisplayOrder(sorted[k].displayOrder, m[o].displayOrder) <= 0
    requires forall o :: o in remaining ==> CompareDisplayOrder(m[n].displayOrder, m[o].displayOrder) <= 0
    ensures var next := sorted + [m[n]];
      forall k, o :: 0 <= k < |next| && o in remaining - {n} ==> CompareDisplayOrder(next[k].displayOrder, m[o].displayOrder) <= 0
  {
    var next := sorted + [m[n]];
    forall k, o | 0 <= k < |next| && o in remaining - {n}
      ensures CompareDisplayOrder(next[k].displayOrder, m[o].displayOrder) <= 0
    {
      if k < |sorted| {
        assert next[k] == sorted[k];
      } else {
        assert next[k] == m[n];
      }
    }
  }

  /** `Collections.sort` of the factorised definitions by display order. */
  method SortByDisplayOrder(m: map<string, NoteDefinition>) returns (sorted: seq<NoteDefinition>)
    requires forall n :: n in m ==> m[n].name == n
    ensures SortProgress(m, sorted, {})
  {
    var remaining := m.Keys;
    sorted := [];
    while remaining != {}
      invariant SortProgress(m, sorted, remaining)
      decreases remaining
    {
      EarliestExists(m, remaining);
      var n :| n in remaining && forall o :: o in remaining ==> CompareDisplayOrder(m[n].displayOrder, m[o].displayOrder) <= 0;
      PlaceEarliest(m, sorted, remaining, n);
      sorted := sorted + [m[n]];
      remaining := remaining - {n};
    }
  }

  /**
   * The note-definition part of the constructor: factorise the definitions of all team
   * projects by name and sort them by display order.
   */
  method FactorizeNotes(defs: seq<NoteDefinition>) returns (sorted: seq<NoteDefinition>)
    ensures IsFactorization(sorted, defs)
  {
    var m: map<string, NoteDefinition> := map[];
    var i := 0;
    while i < |defs|
      invariant 0 <= i <= |defs|
      invariant m == Factorized(defs[..i])
    {
      assert defs[..i + 1][..i] == defs[..i];
      var d := defs[i];
      if d.name !in m || d.required {
        m := m[d.name := d];
      }
      i := i + 1;
    }
    assert defs[..i] == defs;
    FactorizedKeys(defs);
    sorted := SortByDisplayOrder(m);
  }

  /** One fresh note per definition, with no value yet. */
  method CreateNotes(defs: seq<NoteDefinition>) returns (notes: seq<CheckinNote>)
    ensures |notes| == |defs|
    ensures forall k :: 0 <= k < |notes| ==>
      (fresh(notes[k]) && notes[k].name == defs[k].name && notes[k].required == defs[k].required && notes[k].value == None)
    ensures forall i, j :: 0 <= i < j < |notes| ==> notes[i] != notes[j]
  {
    notes := [];
    var i := 0;
    while i < |defs|
      invariant 0 <= i <= |defs| && |notes| == i
      invariant forall k :: 0 <= k < i ==>
        (fresh(notes[k]) && notes[k].name == defs[k].name && notes[k].required == defs[k].required && notes[k].value == None)
      invariant forall a, b :: 0 <= a < b < i ==> notes[a] != notes[b]
    {
      var note := new CheckinNote(defs[i].name, defs[i].required);
      notes := notes + [note];
      i := i + 1;
    }
  }

  /** The notes of `createCopy`: fresh objects with the same names, flags and values. */
  method CopyNotes(notes: seq<CheckinNote>) returns (copies: seq<CheckinNote>)
    ensures |copies| == |notes|
    ensures forall k :: 0 <= k < |copies| ==>
      (fresh(copies[k]) && copies[k].name == notes[k].name && copies[k].required == notes[k].required
       && copies[k].value == notes[k].value)
    ensures forall i, j :: 0 <= i < j < |copies| ==> copies[i] != copies[j]
  {
    copies := [];
    var i := 0;
    while i < |notes|
      invariant 0 <= i <= |notes| && |copies| == i
      invariant forall k :: 0 <= k < i ==>
        (fresh(copies[k]) && copies[k].name == notes[k].name && copies[k].required == notes[k].required
         && copies[k].value == notes[k].value)
      invariant forall a, b :: 0 <= a < b < i ==> copies[a] != copies[b]
    {
      var copy := new CheckinNote(notes[i].name, notes[i].required);
      copy.value := notes[i].value;
      copies := copies + [copy];
      i := i + 1;
    }
  }

  // ---------------------------------------------------------------------------------
  // Required-note validation
  // ---------------------------------------------------------------------------------

  /** `StringUtil.isEmptyOrSpaces`: null, or nothing left after trimming characters up to a space. */
  predicate IsEmptyOrSpaces(v: Option<string>)
  {
    v.None? || forall i :: 0 <= i < |v.value| ==> v.value[i] <= ' '
  }

  /** A note that blocks the check-in: required, and with no value. */
  predicate IsMissing(note: CheckinNote)
    reads note
  {
    note.required && IsEmptyOrSpaces(note.value)
  }

  /** The names of the missing notes, in note order. */
  function EmptyNoteNames(notes: seq<CheckinNote>): seq<string>
    reads set k | 0 <= k < |notes| :: notes[k]
  {
    if notes == [] then []
    else
      var init := EmptyNoteNames(notes[..|notes| - 1]);
      if IsMissing(notes[|notes| - 1]) then init + [notes[|notes| - 1].name] else init
  }

  /** A name is reported exactly when some note of that name is missing. */
  lemma {:induction false} EmptyNoteNamesMembers(notes: seq<CheckinNote>)
    ensures forall n :: n in EmptyNoteNames(notes) <==> exists k :: 0 <= k < |notes| && notes[k].name == n && IsMissing(notes[k])
    ensures |EmptyNoteNames(notes)| <= |notes|
  {
    if notes != [] {
      var init := notes[..|notes| - 1];
      EmptyNoteNamesMembers(init);
      forall n ensures n in EmptyNoteNames(notes) <==> exists k :: 0 <= k < |notes| && notes[k].name == n && IsMissing(notes[k]) {
        if n in EmptyNoteNames(init) {
          var k :| 0 <= k < |init| && init[k].name == n && IsMissing(init[k]);
          assert notes[k] == init[k];
        }
        if exists k :: 0 <= k < |notes| && notes[k].name == n && IsMissing(notes[k]) {
          var k :| 0 <= k < |notes| && notes[k].name == n && IsMissing(notes[k]);
          if k < |notes| - 1 { assert init[k] == notes[k]; }
        }
      }
    }
  }

  /** The inner loop of `validateNotes`: collect the names of missing notes of one server. */
  method CollectEmptyNotes(notes: seq<CheckinNote>) returns (names: seq<string>)
    ensures names == EmptyNoteNames(notes)
  {
    names := [];
    var i := 0;
    while i < |notes|
      invariant 0 <= i <= |notes|
      invariant names == EmptyNoteNames(notes[..i])
    {
      assert notes[..i + 1][..i] == notes[..i];
      if notes[i].required && IsEmptyOrSpaces(notes[i].value) {
        names := names + [notes[i].name];
      }
      i := i + 1;
    }
    assert notes[..i] == notes;
  }
}
