/**
 * A concrete stand-in for the structural diff/patch engine the synchronisation core
 * treats as a collaborator. Documents are JSON values; a delta between two objects
 * lists, field by field, what to set and what to remove, and any other change is a
 * whole-value replacement. The three facts the synchronisation engine relies on are
 * proved below: patching with a diff yields its target, a diff is empty exactly when
 * the documents are equal, and an empty delta changes nothing.
 */
module DiffEngine {
  import opened Wrappers

  /** A JSON value. Numbers are integers in this model. */
  datatype Json =
    | Null
    | Bool(b: bool)
    | Num(n: int)
    | Str(s: string)
    | Arr(items: seq<Json>)
    | Obj(fields: map<string, Json>)

  /** A synchronised document. */
  type Doc = Json

  /** The empty object `{}`. */
  const EmptyDoc: Doc := Obj(map[])

  /** What a delta does to one field of an object. */
  datatype FieldChange = Set(value: Json) | Unset

  /** A structural difference between two documents. */
  datatype Delta =
    | Unchanged
    | Replace(value: Json)
    | Fields(changes: map<string, FieldChange>)

  /** The value of field `k`, if any. */
  function Get(m: map<string, Json>, k: string): Option<Json>
  {
    if k in m then Some(m[k]) else None
  }

  /** What a field change leaves in the field. */
  function Outcome(c: FieldChange): Option<Json>
  {
    match c
    case Set(v) => Some(v)
    case Unset => None
  }

  /** `isEmpty(delta)`: no delta at all, or an object delta without entries. */
  predicate IsEmpty(d: Delta)
  {
    d.Unchanged? || (d.Fields? && d.changes == map[])
  }

  /** Two field maps with the same lookups are the same map. */
  lemma FieldsExtensional(m1: map<string, Json>, m2: map<string, Json>)
    requires forall k :: Get(m1, k) == Get(m2, k)
    ensures m1 == m2
  {
    assert m1.Keys == m2.Keys by {
      forall k ensures k in m1 <==> k in m2 {
        assert Get(m1, k).Some? <==> Get(m2, k).Some?;
      }
    }
    forall k | k in m1 ensures m1[k] == m2[k] {
      assert Get(m1, k) == Get(m2, k);
    }
  }

  /** The field-wise delta from `a` to `b`: one entry per field whose lookup differs. */
  function FieldsDiff(a: map<string, Json>, b: map<string, Json>): (c: map<string, FieldChange>)
    ensures forall k :: k in c <==> Get(a, k) != Get(b, k)
    ensures forall k | k in c :: Outcome(c[k]) == Get(b, k)
  {
    map k | k in a.Keys + b.Keys && Get(a, k) != Get(b, k) :: if k in b then Set(b[k]) else Unset
  }

  /** Applies field changes to an object's fields. */
  function PatchFields(m: map<string, Json>, c: map<string, FieldChange>): (r: map<string, Json>)
    ensures forall k :: Get(r, k) == if k in c then Outcome(c[k]) else Get(m, k)
  {
    map k | k in m.Keys + c.Keys && (k in c ==> c[k].Set?) :: if k in c then c[k].value else m[k]
  }

  /** `diff(a, b)`: nothing for equal documents, a field-wise delta between two objects,
      a replacement otherwise. */
  function Diff(a: Doc, b: Doc): Delta
  {
    if a == b then Unchanged
    else if a.Obj? && b.Obj? then Fields(FieldsDiff(a.fields, b.fields))
    else Replace(b)
  }

  /** `patch(doc, delta)`. An object delta leaves a non-object document as it is. */
  function Patch(doc: Doc, d: Delta): Doc
  {
    match d
    case Unchanged => doc
    case Replace(v) => v
    case Fields(c) => if doc.Obj? then Obj(PatchFields(doc.fields, c)) else doc
  }

  /** Patching a document with its diff to `b` yields `b`. */
  lemma PatchDiff(a: Doc, b: Doc)
    ensures Patch(a, Diff(a, b)) == b
  {
    if a != b && a.Obj? && b.Obj? {
      var c := FieldsDiff(a.fields, b.fields);
      var r := PatchFields(a.fields, c);
      forall k ensures Get(r, k) == Get(b.fields, k) {
        if k !in c {
          assert Get(a.fields, k) == Get(b.fields, k);
        }
      }
      FieldsExtensional(r, b.fields);
    }
  }

  /** The diff of two documents is empty exactly when they are equal. */
  lemma DiffIsEmptyIff(a: Doc, b: Doc)
    ensures IsEmpty(Diff(a, b)) <==> a == b
  {
    if a != b && a.Obj? && b.Obj? {
      var c := FieldsDiff(a.fields, b.fields);
      if c == map[] {
        forall k ensures Get(a.fields, k) == Get(b.fields, k) {
          assert k !in c;
        }
        FieldsExtensional(a.fields, b.fields);
        assert false;
      }
    }
  }

  /** An empty delta leaves every document unchanged. */
  lemma PatchEmpty(doc: Doc, d: Delta)
    requires IsEmpty(d)
    ensures Patch(doc, d) == doc
  {
    if d.Fields? && doc.Obj? {
      FieldsExtensional(PatchFields(doc.fields, d.changes), doc.fields);
    }
  }
}
