/// The programme designer's drag-and-drop handler: a module instance is
/// dragged within one programme's list, or from one programme to another,
/// and the instance records which programme it now belongs to.
module ProgrammeDesigner {
  import opened Common

  class Programme {
    const id: string
    var moduleInstanceIds: seq<string>

    constructor(id: string, moduleInstanceIds: seq<string>)
      ensures this.id == id && this.moduleInstanceIds == moduleInstanceIds
    {
      this.id := id;
      this.moduleInstanceIds := moduleInstanceIds;
    }
  }

  class ModuleInstance {
    const id: string
    var programmeId: string

    constructor(id: string, programmeId: string)
      ensures this.id == id && this.programmeId == programmeId
    {
      this.id := id;
      this.programmeId := programmeId;
    }
  }

  /// A list (`droppableId`, a programme id) and a position in it.
  datatype Location = Location(droppableId: string, index: int)

  /// What the drag-and-drop library reports when a drag ends; the
  /// destination is absent when the item was dropped outside every list.
  datatype DropResult = DropResult(source: Location, destination: Option<Location>)

  // ---------------------------------------------------------------------
  // Array.prototype.splice with one item removed or inserted

  /// Where `splice(start, ...)` acts on an array of length `len`: a negative
  /// start counts from the end, and both ends are clamped.
  function SpliceStart(len: nat, start: int): (a: nat)
    ensures a <= len
    ensures 0 <= start <= len ==> a == start
    ensures start > len ==> a == len
  {
    if start < 0 then (if len + start < 0 then 0 else len + start)
    else if start > len then len
    else start
  }

  /// `s.splice(a, 1)` leaves this behind.
  function RemoveAt<T>(s: seq<T>, a: nat): (r: seq<T>)
    requires a < |s|
    ensures |r| == |s| - 1
  {
    s[..a] + s[a + 1..]
  }

  /// `s.splice(start, 0, x)` leaves this behind.
  function InsertAt<T>(s: seq<T>, start: int, x: T): (r: seq<T>)
    ensures |r| == |s| + 1
    ensures r[SpliceStart(|s|, start)] == x
  {
    var a := SpliceStart(|s|, start);
    s[..a] + [x] + s[a..]
  }

  /// The list after dragging its item at `from` to `to`.
  function Move<T>(s: seq<T>, from: int, to: int): seq<T>
    requires SpliceStart(|s|, from) < |s|
  {
    var a := SpliceStart(|s|, from);
    InsertAt(RemoveAt(s, a), to, s[a])
  }

  /// Removing an item keeps every other item, once each.
  lemma RemoveAtKeepsOthers<T>(s: seq<T>, a: nat)
    requires a < |s|
    ensures multiset(RemoveAt(s, a)) + multiset{s[a]} == multiset(s)
  {
    assert s == s[..a] + [s[a]] + s[a + 1..];
  }

  /// Inserting adds exactly the new item.
  lemma InsertAtAddsOne<T>(s: seq<T>, start: int, x: T)
    ensures multiset(InsertAt(s, start, x)) == multiset(s) + multiset{x}
  {
    var a := SpliceStart(|s|, start);
    assert s == s[..a] + s[a..];
  }

  /// Removing the item just inserted gives the list back.
  lemma RemoveUndoesInsert<T>(s: seq<T>, start: int, x: T)
    ensures RemoveAt(InsertAt(s, start, x), SpliceStart(|s|, start)) == s
  {
    var a := SpliceStart(|s|, start);
    var r := InsertAt(s, start, x);
    assert r[..a] == s[..a];
    assert r[a + 1..] == s[a..];
    assert s == s[..a] + s[a..];
  }

  /// Inserting an item where it was removed gives the list back.
  lemma InsertUndoesRemove<T>(s: seq<T>, a: nat)
    requires a < |s|
    ensures InsertAt(RemoveAt(s, a), a, s[a]) == s
  {
    var r := RemoveAt(s, a);
    assert r[..a] == s[..a];
    assert r[a..] == s[a + 1..];
    assert s == s[..a] + [s[a]] + s[a + 1..];
  }

  /// A move within a list reorders it: same length, same items, and the
  /// dragged item at the destination index (clamped to the list).
  lemma MoveIsPermutation<T>(s: seq<T>, from: int, to: int)
    requires SpliceStart(|s|, from) < |s|
    ensures |Move(s, from, to)| == |s|
    ensures multiset(Move(s, from, to)) == multiset(s)
    ensures Move(s, from, to)[SpliceStart(|s| - 1, to)] == s[SpliceStart(|s|, from)]
  {
    var a := SpliceStart(|s|, from);
    RemoveAtKeepsOthers(s, a);
    InsertAtAddsOne(RemoveAt(s, a), to, s[a]);
  }

  /// Dragging the item back to where it came from restores the list.
  lemma MoveBack<T>(s: seq<T>, from: nat, to: int)
    requires from < |s|
    ensures var back := SpliceStart(|s| - 1, to);
      back < |s| && Move(Move(s, from, to), back, from) == s
  {
    var back := SpliceStart(|s| - 1, to);
    var moved := Move(s, from, to);
    var rest := RemoveAt(s, from);
    RemoveUndoesInsert(rest, to, s[from]);
    assert RemoveAt(moved, back) == rest;
    InsertUndoesRemove(s, from);
  }

  /// A move between lists neither loses nor duplicates an item.
  lemma CrossMoveConserves<T>(source: seq<T>, destination: seq<T>, a: nat, to: int)
    requires a < |source|
    ensures |RemoveAt(source, a)| + |InsertAt(destination, to, source[a])| == |source| + |destination|
    ensures multiset(RemoveAt(source, a)) + multiset(InsertAt(destination, to, source[a]))
         == multiset(source) + multiset(destination)
  {
    RemoveAtKeepsOthers(source, a);
    InsertAtAddsOne(destination, to, source[a]);
  }

  // ---------------------------------------------------------------------
  // Lookups

  /// The ids the lookups compare.
  function ProgrammeId(p: Programme): string { p.id }

  function InstanceId(m: ModuleInstance): string { m.id }

  // ---------------------------------------------------------------------
  // handleOnDragEnd

  /// The library only reports drags of items that are on screen: when the
  /// source list exists, the source index names one of its items.
  predicate SourceIndexValid(result: DropResult, programmes: seq<Programme>)
    reads programmes
  {
    var found := FindFirst(programmes, ProgrammeId, result.source.droppableId);
    found.Some? ==>
      SpliceStart(|programmes[found.value].moduleInstanceIds|, result.source.index)
        < |programmes[found.value].moduleInstanceIds|
  }

  /// Handles the end of a drag. `update` is what reaches the two setters,
  /// or `None` when the item was dropped outside every list and neither
  /// setter is called; both receive copies of the arrays that hold the same
  /// objects, which are updated in place.
  method HandleOnDragEnd(result: DropResult, programmes: seq<Programme>, moduleInstances: seq<ModuleInstance>)
    returns (update: Option<(seq<Programme>, seq<ModuleInstance>)>)
    requires SourceIndexValid(result, programmes)
    modifies set p | p in programmes
    modifies set m | m in moduleInstances
    ensures result.destination.None? <==> update.None?
    ensures update.Some? ==> update.value == (programmes, moduleInstances)
    ensures result.destination.None? ==>
      (forall p :: p in programmes ==> p.moduleInstanceIds == old(p.moduleInstanceIds))
      && (forall m :: m in moduleInstances ==> m.programmeId == old(m.programmeId))
    // A drag within one list moves the item inside that list only.
    ensures result.destination.Some? && result.source.droppableId == result.destination.value.droppableId ==>
      var found := FindFirst(programmes, ProgrammeId, result.source.droppableId);
      (found.Some? ==>
         programmes[found.value].moduleInstanceIds
         == Move(old(programmes[found.value].moduleInstanceIds), result.source.index, result.destination.value.index))
      && (forall p :: p in programmes && (found.None? || p != programmes[found.value]) ==>
            p.moduleInstanceIds == old(p.moduleInstanceIds))
      && (forall m :: m in moduleInstances ==> m.programmeId == old(m.programmeId))
    // A drag between lists moves the item across and re-parents its instance,
    // when both lists exist; otherwise nothing changes.
    ensures result.destination.Some? && result.source.droppableId != result.destination.value.droppableId ==>
      var from := FindFirst(programmes, ProgrammeId, result.source.droppableId);
      var to := FindFirst(programmes, ProgrammeId, result.destination.value.droppableId);
      if from.Some? && to.Some? then
        var source := programmes[from.value];
        var destination := programmes[to.value];
        var a := SpliceStart(|old(source.moduleInstanceIds)|, result.source.index);
        var dragged := old(source.moduleInstanceIds)[a];
        var instance := FindFirst(moduleInstances, InstanceId, dragged);
        source.moduleInstanceIds == RemoveAt(old(source.moduleInstanceIds), a)
        && destination.moduleInstanceIds
           == InsertAt(old(destination.moduleInstanceIds), result.destination.value.index, dragged)
        && (forall p :: p in programmes && p != source && p != destination ==>
              p.moduleInstanceIds == old(p.moduleInstanceIds))
        && (instance.Some? ==> moduleInstances[instance.value].programmeId == destination.id)
        && (forall m :: m in moduleInstances && (instance.None? || m != moduleInstances[instance.value]) ==>
              m.programmeId == old(m.programmeId))
      else
        (forall p :: p in programmes ==> p.moduleInstanceIds == old(p.moduleInstanceIds))
        && (forall m :: m in moduleInstances ==> m.programmeId == old(m.programmeId))
  {
    if result.destination.None? {
      return None;
    }
    var source := result.source;
    var destination := result.destination.value;
    if source.droppableId == destination.droppableId {
      var found := FindFirst(programmes, ProgrammeId, source.droppableId);
      if found.Some? {
        var programme := programmes[found.value];
        var ids := programme.moduleInstanceIds;
        var a := SpliceStart(|ids|, source.index);
        var dragged := ids[a];
        programme.moduleInstanceIds := InsertAt(RemoveAt(ids, a), destination.index, dragged);
      }
    } else {
      var from := FindFirst(programmes, ProgrammeId, source.droppableId);
      var to := FindFirst(programmes, ProgrammeId, destination.droppableId);
      if from.Some? && to.Some? {
        var sourceProgramme := programmes[from.value];
        var destinationProgramme := programmes[to.value];
        var ids := sourceProgramme.moduleInstanceIds;
        var a := SpliceStart(|ids|, source.index);
        var dragged := ids[a];
        sourceProgramme.moduleInstanceIds := RemoveAt(ids, a);
        destinationProgramme.moduleInstanceIds :=
          InsertAt(destinationProgramme.moduleInstanceIds, destination.index, dragged);
        var instance := FindFirst(moduleInstances, InstanceId, dragged);
        if instance.Some? {
          moduleInstances[instance.value].programmeId := destinationProgramme.id;
        }
      }
    }
    return Some((programmes, moduleInstances));
  }
}
