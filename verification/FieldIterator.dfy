/** The iterator over a table, which keeps pointers into the struct up to date. */
module FieldIterator {
  import opened Varint
  import opened Descriptor
  import opened Message

  /** The size of a data pointer inside a struct. */
  const POINTER_SIZE: nat := 8

  // ---- pointers, step by step ----

  /** How far the data of a field reaches, as the iterator sees it. */
  function StepSize(f: Field): nat {
    if f.atype.Static? && f.htype.Repeated? then f.dataSize * f.arraySize
    else if f.atype.Pointer? then POINTER_SIZE
    else f.dataSize
  }

  /** The marker for members of a union behind the first. */
  predicate InUnion(prev: Field, f: Field) {
    prev.htype.Oneof? && f.htype.Oneof? && f.dataOffset == PB_SIZE_MAX
  }

  /** The distance of the data of field i from the start of the struct, accumulated from the first field on. */
  function DataWalk(table: Table, i: nat): nat
    requires i < |table|
  {
    if i == 0 then table[0].dataOffset
    else if InUnion(table[i - 1], table[i]) then DataWalk(table, i - 1)
    else DataWalk(table, i - 1) + StepSize(table[i - 1]) + table[i].dataOffset
  }

  /** The distance of the count, flag or selector of field i; inside a union it is not recomputed. */
  function SizeWalk(table: Table, i: nat): int
    requires i < |table|
  {
    if i > 0 && InUnion(table[i - 1], table[i]) then SizeWalk(table, i - 1)
    else DataWalk(table, i) + table[i].sizeOffset
  }

  // ---- the struct layout the table was made from ----

  /** How many bytes the struct member of a field takes. */
  predicate MemberSize(f: Field, size: nat) {
    && (f.atype.Pointer? ==> size == 8)
    && (f.atype.Static? && f.htype.Repeated? ==> size == f.dataSize * f.arraySize)
    && (f.atype.Static? && !f.htype.Repeated? ==> size == f.dataSize)
  }

  /** `off` and `size` give the place of each field in the struct, and the table has the relative offsets that the
      descriptor macros compute from it: the first field counts from the start of the struct, the others from the end of
      the field before, and the members of one union share their place and their selector. */
  predicate LaidOut(table: Table, off: seq<nat>, size: seq<nat>) {
    |off| == |size| == |table| &&
    forall i :: 0 <= i < |table| ==> MemberSize(table[i], size[i]) && LaidOutField(table, off, size, i)
  }

  predicate SameUnion(f: Field, g: Field) {
    f.htype.Oneof? && f.htype == g.htype
  }

  predicate LaidOutField(table: Table, off: seq<nat>, size: seq<nat>, i: int)
    requires 0 <= i < |table| == |off| == |size|
  {
    var f := table[i];
    if i == 0 then f.dataOffset == off[0]
    else if SameUnion(table[i - 1], f) then
      off[i] == off[i - 1] && f.sizeOffset == table[i - 1].sizeOffset && f.dataOffset == PB_SIZE_MAX
    else
      f.dataOffset < PB_SIZE_MAX && off[i] == off[i - 1] + size[i - 1] + f.dataOffset
  }

  /** The accumulated pointers are the direct ones. */
  lemma {:induction false} WalkIsLayout(table: Table, off: seq<nat>, size: seq<nat>, i: nat)
    requires LaidOut(table, off, size) && i < |table|
    ensures DataWalk(table, i) == off[i] && SizeWalk(table, i) == off[i] + table[i].sizeOffset
  {
    assert LaidOutField(table, off, size, i);
    if i > 0 {
      WalkIsLayout(table, off, size, i - 1);
    }
  }

  /** The pointers come to each field behind all bytes of the fields before it; behind a pointer these are eight. */
  lemma WalkApart(table: Table, off: seq<nat>, size: seq<nat>, i: nat, j: nat)
    requires LaidOut(table, off, size) && i < j < |table| && !table[i].htype.Oneof?
    ensures DataWalk(table, i) + size[i] <= DataWalk(table, j)
    ensures table[i].atype.Pointer? ==> DataWalk(table, i) + 8 <= DataWalk(table, j)
  {
    WalkIsLayout(table, off, size, i);
    WalkIsLayout(table, off, size, j);
    OffsetsGrow(table, off, size, i, j);
  }

  lemma {:induction false} OffsetsGrow(table: Table, off: seq<nat>, size: seq<nat>, i: nat, j: nat)
    requires LaidOut(table, off, size) && i < j < |table| && !table[i].htype.Oneof?
    ensures |off| == |size| == |table| && off[j] >= off[i] + size[i]
    decreases j
  {
    hide LaidOut;
    OffsetStep(table, off, size, j);
    if i < j - 1 {
      OffsetsGrow(table, off, size, i, j - 1);
    }
  }

  lemma OffsetStep(table: Table, off: seq<nat>, size: seq<nat>, j: nat)
    requires LaidOut(table, off, size) && 0 < j < |table|
    ensures |off| == |size| == |table| && off[j] >= off[j - 1]
    ensures !table[j - 1].htype.Oneof? ==> off[j] >= off[j - 1] + size[j - 1]
  {
    hide MemberSize;
    assert LaidOutField(table, off, size, j);
  }

  // ---- what initialisation clears ----

  /** Initialisation stores a count of zero at the data of an array without count. It stays inside an array of at least
      that size, and does not reach any field behind it. */
  lemma CountStaysInside(table: Table, off: seq<nat>, size: seq<nat>, i: nat, j: nat)
    requires LaidOut(table, off, size) && i < j < |table| && FixedCount(table[i])
    requires table[i].dataSize * table[i].arraySize >= COUNT_SIZE
    ensures off[i] + COUNT_SIZE <= off[j]
  {
    OffsetsGrow(table, off, size, i, j);
  }

  /** The bound is exact: with the next field right behind it, the count stays inside if and only if the array has the size
      of a count. */
  lemma CountInsideExact(table: Table, off: seq<nat>, size: seq<nat>, i: nat)
    requires LaidOut(table, off, size) && i + 1 < |table| && FixedCount(table[i]) && table[i + 1].dataOffset == 0
    ensures off[i] + COUNT_SIZE <= off[i + 1] <==> table[i].dataSize * table[i].arraySize >= COUNT_SIZE
  {
    assert LaidOutField(table, off, size, i + 1);
  }

  // ---- the iterator ----

  class FieldIter {
    var table: Table
    var pos: nat
    var requiredIndex: nat
    var dest: int
    var pData: int
    var pSize: int

    /** The iterator stands on a field (on the terminator entry only when there are no fields) and its pointers are
        those of this field. */
    ghost predicate Valid()
      reads this
    {
      if table == [] then pos == 0 && requiredIndex == 0
      else
        && pos < |table|
        && requiredIndex == RequiredBefore(table, pos)
        && pData == dest + DataWalk(table, pos)
        && pSize == dest + SizeWalk(table, pos)
    }

    constructor Begin(table: Table, dest: int)
      ensures Valid() && this.table == table && this.dest == dest && pos == 0
    {
      this.table := table;
      this.dest := dest;
      pos := 0;
      requiredIndex := 0;
      var dataOffset := if table == [] then 0 else table[0].dataOffset;
      var sizeOffset := if table == [] then 0 else table[0].sizeOffset;
      pData := dest + dataOffset;
      pSize := dest + dataOffset + sizeOffset;
    }

    /** Back to the first field. */
    method Rewind()
      modifies this
      ensures Valid() && table == old(table) && dest == old(dest) && pos == 0
    {
      pos := 0;
      requiredIndex := 0;
      if table != [] {
        pData := dest + table[0].dataOffset;
        pSize := pData + table[0].sizeOffset;
      }
    }

    /** One field further; behind the last field the iterator wraps to the first and the result is false. */
    method Next() returns (more: bool)
      requires Valid()
      modifies this
      ensures Valid() && table == old(table) && dest == old(dest)
      ensures more <==> old(pos) + 1 < |table|
      ensures pos == if more then old(pos) + 1 else 0
    {
      if table == [] {
        return false;
      }
      var prev := table[pos];
      pos := pos + 1;
      if pos == |table| {
        Rewind();
        return false;
      }
      var f := table[pos];
      var prevSize := prev.dataSize;
      if prev.htype.Oneof? && f.htype.Oneof? && f.dataOffset == PB_SIZE_MAX {
        return true;
      } else if prev.atype.Static? && prev.htype.Repeated? {
        prevSize := prevSize * prev.arraySize;
      } else if prev.atype.Pointer? {
        prevSize := POINTER_SIZE;
      }
      if prev.htype.Required? {
        requiredIndex := requiredIndex + 1;
      }
      pData := pData + prevSize + f.dataOffset;
      pSize := pData + f.sizeOffset;
      return true;
    }

    /** The current entry is the field looked for. The terminator entry reads as a boolean field with tag 0. */
    predicate Matches(tag: nat)
      reads this
      requires pos < |table| || (table == [] && pos == 0)
    {
      if table == [] then tag == 0 else table[pos].tag == tag && !table[pos].ltype.Extension?
    }

    /** Searches one full cycle from the current field on. It succeeds exactly when some field other than an extension
        placeholder has the tag, and a failed search ends where it began. */
    method Find(tag: nat) returns (found: bool, ghost steps: nat)
      requires Valid()
      modifies this
      ensures Valid() && table == old(table) && dest == old(dest)
      ensures found ==> Matches(tag)
      ensures found <==>
              (if table == [] then tag == 0
               else exists i :: 0 <= i < |table| && table[i].tag == tag && !table[i].ltype.Extension?)
      ensures !found ==> pos == old(pos)
      ensures steps <= if table == [] then 1 else |table|
    {
      var start := pos;
      steps := 0;
      while true
        invariant Valid() && table == old(table) && dest == old(dest)
        invariant 0 <= steps && (table != [] ==> steps < |table|) && (table == [] ==> steps == 0)
        invariant steps == 0 <==> pos == start
        invariant table != [] ==> pos == if start + steps < |table| then start + steps else start + steps - |table|
        invariant forall i :: start <= i < start + steps && i < |table| ==> table[i].tag != tag || table[i].ltype.Extension?
        invariant forall i :: 0 <= i < start + steps - |table| ==> table[i].tag != tag || table[i].ltype.Extension?
        decreases |table| - steps
      {
        if Matches(tag) {
          return true, steps;
        }
        var _ := Next();
        steps := steps + 1;
        if pos == start {
          return false, steps;
        }
      }
    }

    /** Searches one full cycle for the extension placeholder. It succeeds exactly when there is one, and a failed search
        ends where it began. */
    method FindExtension() returns (found: bool, ghost steps: nat)
      requires Valid()
      modifies this
      ensures Valid() && table == old(table) && dest == old(dest)
      ensures found ==> table != [] && table[pos].ltype.Extension?
      ensures found <==> exists i :: 0 <= i < |table| && table[i].ltype.Extension?
      ensures !found ==> pos == old(pos)
      ensures steps <= if table == [] then 1 else |table|
    {
      var start := pos;
      steps := 0;
      while true
        invariant Valid() && table == old(table) && dest == old(dest)
        invariant 0 <= steps && (table != [] ==> steps < |table|) && (table == [] ==> steps == 0)
        invariant steps == 0 <==> pos == start
        invariant table != [] ==> pos == if start + steps < |table| then start + steps else start + steps - |table|
        invariant forall i :: start <= i < start + steps && i < |table| ==> !table[i].ltype.Extension?
        invariant forall i :: 0 <= i < start + steps - |table| ==> !table[i].ltype.Extension?
        decreases |table| - steps
      {
        if table != [] && table[pos].ltype.Extension? {
          return true, steps;
        }
        var _ := Next();
        steps := steps + 1;
        if pos == start {
          return false, steps;
        }
      }
    }
  }

  /** With distinct tags, where a search ends depends only on the table and the tag, not on where it began. */
  lemma SearchIsFind(table: Table, tag: nat, pos: nat)
    requires DistinctTags(table) && pos < |table| && table[pos].tag == tag && !table[pos].ltype.Extension?
    ensures Find(table, tag) == Some(pos)
  {
    FindUnique(table, pos);
  }

  lemma SearchFails(table: Table, tag: nat)
    ensures Find(table, tag).None? <==>
            !exists i :: 0 <= i < |table| && table[i].tag == tag && !table[i].ltype.Extension?
  {
    FindFromNone(table, tag, 0);
  }
}
