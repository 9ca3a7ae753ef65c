/** Walking over the fields of a message (pb_common.c). */
module PbFieldIter {
  import opened Wrappers
  import opened PbMessages

  // Places in the message struct

  function ArraySize(f: Field): nat {
    match f.rule
    case Repeated(max) => max
    case FixedCount(max) => max
    case _ => 0
  }

  /** What the field takes up in the struct. */
  function MemberSize(f: Field): nat {
    if f.rule.Repeated? || f.rule.FixedCount? then f.slot.size * ArraySize(f) else f.slot.size
  }

  /** The field is a member of the same union as the one before it. */
  predicate JoinsUnion(fields: seq<Field>, i: nat)
    requires i < |fields|
  {
    i > 0 && fields[i - 1].rule.OneOf? && fields[i].rule == fields[i - 1].rule
  }

  /** data_offset: from the end of the field before, or the mark, here `None`, for further members of a union. */
  function DataOffset(fields: seq<Field>, i: nat): Option<int>
    requires i < |fields|
  {
    if i == 0 then Some(fields[0].slot.offset)
    else if JoinsUnion(fields, i) then None
    else Some(fields[i].slot.offset - fields[i - 1].slot.offset - MemberSize(fields[i - 1]))
  }

  /** size_offset: from the field to its flag, count or tag. */
  function SizeOffset(f: Field): int { if f.slot.flag.Some? then f.slot.flag.value - f.slot.offset else 0 }

  /** Members of a union are in the same place, and have one tag that tells which of them is there. */
  predicate UnionsShare(fields: seq<Field>) {
    forall i :: 0 < i < |fields| && JoinsUnion(fields, i) ==>
      fields[i].slot.offset == fields[i - 1].slot.offset && fields[i].slot.flag == fields[i - 1].slot.flag
  }

  class FieldIter {
    const fields: seq<Field>
    const destStruct: int
    var pos: nat
    var requiredFieldIndex: nat
    var pData: int  // addresses of the field and of its flag, count or tag
    var pSize: int

    /** Never at the end mark of the table, unless there are no fields; and at the place of the field in the struct. */
    ghost predicate Valid()
      reads this
    {
      && (pos < |fields| || (pos == 0 && fields == []))
      && requiredFieldIndex == RequiredIndex(fields, pos)
      && (fields != [] && UnionsShare(fields) ==>
            pData == destStruct + fields[pos].slot.offset && pSize == pData + SizeOffset(fields[pos]))
    }

    constructor (fields: seq<Field>, destStruct: int)
      ensures Valid() && this.fields == fields && this.destStruct == destStruct && pos == 0
    {
      this.fields, this.destStruct, pos, requiredFieldIndex := fields, destStruct, 0, 0;
      pData := destStruct + if fields != [] then fields[0].slot.offset else 0;
      pSize := destStruct + if fields != [] then fields[0].slot.offset + SizeOffset(fields[0]) else 0;
    }

    /** pb_field_iter_begin. */
    method Begin() returns (ok: bool)
      modifies this
      ensures Valid() && pos == 0 && ok == (fields != [])
    {
      pos, requiredFieldIndex := 0, 0;
      ok := |fields| > 0;
      if ok {
        pData := destStruct + fields[0].slot.offset;
        pSize := pData + SizeOffset(fields[0]);
      }
    }

    /** pb_field_iter_next: wraps at the end, and goes by relative offsets to the place of the next field. */
    method Next() returns (ok: bool)
      requires Valid()
      modifies this
      ensures Valid() && pos == (if old(pos) + 1 < |fields| then old(pos) + 1 else 0) && ok == (old(pos) + 1 < |fields|)
    {
      if |fields| == 0 { return false; }
      if pos + 1 == |fields| {
        var nonEmpty := Begin();
        return false;
      }
      var previous, offset := fields[pos], DataOffset(fields, pos + 1);
      pos := pos + 1;
      ok := true;
      if previous.rule.OneOf? && fields[pos].rule.OneOf? && offset.None? {
        return;
      }
      var previousSize := previous.slot.size;
      if previous.rule.Repeated? || previous.rule.FixedCount? {
        previousSize := previousSize * ArraySize(previous);
      }
      if previous.rule.Required? {
        requiredFieldIndex := requiredFieldIndex + 1;
      }
      pData := pData + previousSize + offset.value;
      pSize := pData + SizeOffset(fields[pos]);
    }

    /** pb_field_iter_find: from where it is, around to there again. */
    method Find(tag: nat) returns (found: bool)
      requires Valid() && forall i, j :: 0 <= i < j < |fields| ==> fields[i].tag != fields[j].tag
      modifies this
      ensures Valid() && found == (FindField(fields, tag).Some? || (fields == [] && tag == 0))
      ensures pos == if FindField(fields, tag).Some? then FindField(fields, tag).value else old(pos)
    {
      if |fields| == 0 { return tag == 0; }
      var start := pos;
      ghost var visited := 0;
      while true
        invariant Valid() && visited < |fields|
        invariant pos == if start + visited < |fields| then start + visited else start + visited - |fields|
        invariant forall k :: start <= k < start + visited && k < |fields| ==> fields[k].tag != tag
        invariant forall k :: 0 <= k < start + visited - |fields| ==> fields[k].tag != tag
        decreases |fields| - visited
      {
        if fields[pos].tag == tag {
          FoundAt(fields, pos);
          return true;
        }
        var wrapped := Next();
        visited := visited + 1;
        if pos == start {
          NotFound(fields, tag);
          return false;
        }
      }
    }
  }

  lemma {:induction false} FoundAt(fields: seq<Field>, i: nat)
    requires i < |fields| && forall j, k :: 0 <= j < k < |fields| ==> fields[j].tag != fields[k].tag
    ensures FindField(fields, fields[i].tag) == Some(i)
  {
    if i > 0 { FoundAt(fields[1..], i - 1); }
  }

  lemma {:induction false} NotFound(fields: seq<Field>, tag: nat)
    requires forall k :: 0 <= k < |fields| ==> fields[k].tag != tag
    ensures FindField(fields, tag) == None
  {
  }
}
