/**
 The field map: the mutable object, its refinement of an append-only list of fields, and
 the invariants that appending keeps.
 */
module FieldMaps {
  import opened Text
  import opened MessageHeader

  /** The first position whose name does not stand before `name`. */
  function LowerBound(fields: Fields, name: string): (i: nat)
    ensures i <= |fields|
    ensures i < |fields| ==> StriCmp(name, fields[i].name) <= 0
    ensures forall k :: 0 <= k < i ==> StriCmp(name, fields[k].name) > 0
  {
    if fields == [] || StriCmp(name, fields[0].name) <= 0 then 0 else LowerBound(fields[1..], name) + 1
  }

  /** `fields` with the value put in at position `i`: joined to the entry there or inserted. */
  function PutAt(fields: Fields, i: nat, name: string, value: string): Fields
    requires i <= |fields|
  {
    if i < |fields| && SameName(name, fields[i].name)
    then fields[i := fields[i].(value := Combine(fields[i].value, value))]
    else fields[..i] + [Field(name, value)] + fields[i..]
  }

  lemma PutAtShifts(head: Field, tail: Fields, i: nat, name: string, value: string)
    requires i <= |tail|
    ensures PutAt([head] + tail, i + 1, name, value) == [head] + PutAt(tail, i, name, value)
  {
    var fields := [head] + tail;
    if i < |tail| {
      assert fields[i + 1] == tail[i];
    }
    if i < |tail| && SameName(name, tail[i].name) {
    } else {
      assert fields[..i + 1] == [head] + tail[..i] && fields[i + 1..] == tail[i..];
    }
  }

  lemma {:induction false} AppendAtLowerBound(fields: Fields, name: string, value: string)
    ensures Append(fields, name, value) == PutAt(fields, LowerBound(fields, name), name, value)
  {
    if fields != [] && StriCmp(name, fields[0].name) > 0 {
      AppendAtLowerBound(fields[1..], name, value);
      PutAtShifts(fields[0], fields[1..], LowerBound(fields[1..], name), name, value);
      assert fields == [fields[0]] + fields[1..];
    }
  }

  class FieldMap {
    var entries: Fields

    constructor ()
      ensures entries == []
    {
      entries := [];
    }

    /** Emplaces a new entry, or extends the value of the one already there. */
    method Emplace(name: string, value: string)
      modifies this
      ensures entries == Append(old(entries), name, value)
    {
      var i := LowerBound(entries, name);
      AppendAtLowerBound(entries, name, value);
      if i < |entries| && SameName(name, entries[i].name) {
        if value != [] {
          entries := entries[i := entries[i].(value := entries[i].value + ", " + value)];
        }
      } else {
        entries := entries[..i] + [Field(name, value)] + entries[i..];
      }
    }

    /** The overload that validates both strings; `ok` is false where the source throws. */
    method EmplaceChecked(name: string, value: string) returns (ok: bool)
      modifies this
      ensures ok <==> IsToken(name) && IsFieldValue(value)
      ensures entries == if ok then Append(old(entries), name, value) else old(entries)
      ensures old(ValidFields(entries)) ==> ValidFields(entries)
    {
      ok := IsToken(name) && IsFieldValue(value);
      if ok {
        Emplace(name, value);
        if old(ValidFields(entries)) {
          AppendKeepsValid(old(entries), name, value);
        }
      }
    }
  }

  // ---- Invariants ----

  /** Where an entry of the map comes from after an append. */
  ghost predicate Stems(e: Field, fields: Fields, name: string, value: string) {
    e == Field(name, value) || e in fields ||
    exists f :: f in fields && e == Field(f.name, Combine(f.value, value))
  }

  lemma {:induction false} AppendStems(fields: Fields, name: string, value: string)
    ensures forall e :: e in Append(fields, name, value) ==> Stems(e, fields, name, value)
  {
    if fields != [] && StriCmp(name, fields[0].name) > 0 {
      AppendStems(fields[1..], name, value);
    } else if fields != [] && SameName(name, fields[0].name) {
      assert fields[0] in fields;
    }
  }

  /** Names that stand after `head` still do once another such name is appended. */
  ghost predicate Follow(head: string, fields: Fields) {
    forall i :: 0 <= i < |fields| ==> StriCmp(head, fields[i].name) < 0
  }

  lemma {:induction false} AppendKeepsSorted(fields: Fields, name: string, value: string)
    requires Sorted(fields)
    ensures Sorted(Append(fields, name, value))
  {
    if fields != [] {
      var head, tail := fields[0], fields[1..];
      StriCmpAntisymmetric(name, head.name);
      if StriCmp(name, head.name) < 0 {
        forall j | 0 < j < |fields| ensures StriCmp(name, fields[j].name) < 0 {
          StriCmpTransitive(name, head.name, fields[j].name);
        }
      } else if StriCmp(name, head.name) > 0 {
        AppendKeepsSorted(tail, name, value);
        AppendKeepsFollow(head.name, tail, name, value);
      }
    }
  }

  lemma AppendKeepsFollow(head: string, fields: Fields, name: string, value: string)
    requires Follow(head, fields) && StriCmp(head, name) < 0
    ensures Follow(head, Append(fields, name, value))
  {
    AppendStems(fields, name, value);
    var r := Append(fields, name, value);
    forall i | 0 <= i < |r| ensures StriCmp(head, r[i].name) < 0 {
      assert Stems(r[i], fields, name, value);
    }
  }

  lemma CombineKeepsValid(old_value: string, value: string)
    requires IsFieldValue(old_value) && IsFieldValue(value)
    ensures IsFieldValue(Combine(old_value, value))
  {
  }

  /** Appending a valid field keeps every stored name a token and every stored value valid. */
  lemma {:induction false} AppendKeepsValid(fields: Fields, name: string, value: string)
    requires ValidFields(fields) && IsToken(name) && IsFieldValue(value)
    ensures ValidFields(Append(fields, name, value))
  {
    AppendKeepsSorted(fields, name, value);
    AppendStems(fields, name, value);
    var r := Append(fields, name, value);
    forall i | 0 <= i < |r| ensures IsToken(r[i].name) && IsFieldValue(r[i].value) {
      assert Stems(r[i], fields, name, value);
      if r[i] != Field(name, value) && r[i] !in fields {
        var f :| f in fields && r[i] == Field(f.name, Combine(f.value, value));
        CombineKeepsValid(f.value, value);
      }
    }
  }

  // ---- Refinement of an append-only list ----

  /** The entries of `list` whose name is `name` in some letter case, in order. */
  function Matching(list: seq<Field>, name: string): seq<Field> {
    if list == [] then []
    else if SameName(name, list[0].name) then [list[0]] + Matching(list[1..], name)
    else Matching(list[1..], name)
  }

  /** Every non-empty value preceded by a comma and a blank. */
  function CommaTail(list: seq<Field>): string {
    if list == [] then ""
    else (if list[0].value == [] then "" else ", " + list[0].value) + CommaTail(list[1..])
  }

  /** The field an append-only list answers with: first spelling, values joined. */
  function Joined(list: seq<Field>, name: string): Option<Field> {
    var m := Matching(list, name);
    if m == [] then None else Some(Field(m[0].name, m[0].value + CommaTail(m[1..])))
  }

  function AppendAll(fields: Fields, list: seq<Field>): Fields
    decreases list
  {
    if list == [] then fields else AppendAll(Append(fields, list[0].name, list[0].value), list[1..])
  }

  lemma SameNameTransfers(a: string, b: string, c: string)
    requires SameName(a, b)
    ensures StriCmp(a, c) == StriCmp(b, c)
  {
    StriCmpAntisymmetric(a, b);
    StriCmpAntisymmetric(a, c);
    StriCmpAntisymmetric(b, c);
    if StriCmp(a, c) <= 0 { StriCmpTransitive(b, a, c); }
    if StriCmp(b, c) <= 0 { StriCmpTransitive(a, b, c); }
  }

  /** What a lookup of `query` that found `found` finds once `name` has been appended. */
  function Extended(found: Option<Field>, name: string, value: string, query: string): Option<Field> {
    if !SameName(query, name) then found
    else match found
         case None => Some(Field(name, value))
         case Some(f) => Some(Field(f.name, Combine(f.value, value)))
  }

  /** A lookup after one append, in any letter case. */
  lemma {:induction false} LookupAppend(fields: Fields, name: string, value: string, query: string)
    requires Sorted(fields)
    ensures Lookup(Append(fields, name, value), query) == Extended(Lookup(fields, query), name, value, query)
  {
    StriCmpAntisymmetric(query, name);
    if fields != [] {
      var head := fields[0].name;
      StriCmpAntisymmetric(head, name);
      if SameName(query, name) { SameNameTransfers(query, name, head); }
      if SameName(name, head) { SameNameTransfers(name, head, query); StriCmpAntisymmetric(query, head); }
      if StriCmp(name, head) < 0 {
        if SameName(query, name) { LookupBeyond(fields, query); }
      } else {
        LookupAppend(fields[1..], name, value, query);
        if SameName(query, head) && SameName(query, name) {
          SameNameTransfers(query, name, head);
        }
      }
    }
  }

  lemma {:induction false} LookupBeyond(fields: Fields, query: string)
    requires Sorted(fields)
    requires fields != [] ==> StriCmp(query, fields[0].name) < 0
    ensures Lookup(fields, query) == None
  {
    if |fields| > 1 {
      StriCmpTransitive(query, fields[0].name, fields[1].name);
      LookupBeyond(fields[1..], query);
    }
  }

  /** The answer of an append-only list to which `list` is added after `found` was there. */
  function Answer(found: Option<Field>, list: seq<Field>, query: string): Option<Field> {
    match found
    case None => Joined(list, query)
    case Some(f) => Some(Field(f.name, f.value + CommaTail(Matching(list, query))))
  }

  lemma AnswerStep(found: Option<Field>, list: seq<Field>, query: string)
    requires list != []
    ensures Answer(Extended(found, list[0].name, list[0].value, query), list[1..], query) == Answer(found, list, query)
  {
    if SameName(query, list[0].name) {
      var m := Matching(list[1..], query);
      assert Matching(list, query) == [list[0]] + m;
      if found.Some? {
        assert Combine(found.value.value, list[0].value) + CommaTail(m) == found.value.value + CommaTail([list[0]] + m);
      }
    }
  }

  lemma {:induction false} AppendAllLookup(fields: Fields, list: seq<Field>, query: string)
    requires Sorted(fields)
    ensures Sorted(AppendAll(fields, list))
    ensures Lookup(AppendAll(fields, list), query) == Answer(Lookup(fields, query), list, query)
    decreases list
  {
    if list == [] {
      if Lookup(fields, query).Some? {
        assert Lookup(fields, query).value.value + "" == Lookup(fields, query).value.value;
      }
    } else {
      LookupAppend(fields, list[0].name, list[0].value, query);
      AppendKeepsSorted(fields, list[0].name, list[0].value);
      AppendAllLookup(Append(fields, list[0].name, list[0].value), list[1..], query);
      AnswerStep(Lookup(fields, query), list, query);
    }
  }

  /** Looking a name up, in any letter case, answers as the append-only list does. */
  lemma RefinesAppendOnlyList(list: seq<Field>, query: string)
    ensures Lookup(AppendAll([], list), query) == Joined(list, query)
  {
    AppendAllLookup([], list, query);
  }

  /** Appends under different names commute. */
  lemma {:induction false} AppendCommutes(fields: Fields, a: Field, b: Field)
    requires !SameName(a.name, b.name)
    ensures Append(Append(fields, a.name, a.value), b.name, b.value) ==
            Append(Append(fields, b.name, b.value), a.name, a.value)
  {
    StriCmpAntisymmetric(a.name, b.name);
    if fields != [] {
      var head := fields[0].name;
      StriCmpAntisymmetric(head, a.name);
      StriCmpAntisymmetric(head, b.name);
      if StriCmp(a.name, b.name) < 0 {
        if StriCmp(b.name, head) <= 0 { StriCmpTransitive(a.name, b.name, head); }
      } else {
        if StriCmp(a.name, head) <= 0 { StriCmpTransitive(b.name, a.name, head); }
      }
      AppendCommutes(fields[1..], a, b);
    }
  }
}
