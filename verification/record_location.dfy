/** Where the records of a walk come from. A record names the field it is
    about and the dotted path of that field's parent; a definition's nested
    `fields` are walked under `parent + "." + name`. So a record is either
    about an expected field of the level being walked, or sits under the
    path of one of them, and at the top level (parent "") nested paths start
    with a dot, as in ".address". */
module RecordLocation {
  import opened Wrappers
  import opened Bson
  import opened IndexValidator
  import AttributeProperties

  /** `x` is the path `base`, or a path below it. */
  predicate Under(x: string, base: string) {
    x == base || (|base| < |x| && x[..|base| + 1] == base + ".")
  }

  /** A record about field `name` under `parent`, or about something nested
      in that field's definitions. */
  predicate LocatedAt(r: InvalidField, parent: string, name: string) {
    (r.fieldParent == parent && r.fieldName == name) || Under(r.fieldParent, parent + "." + name)
  }

  lemma UnderExtends(x: string, q: string, n: string)
    requires Under(x, q + "." + n)
    ensures Under(x, q)
  {
    var b := q + "." + n;
    assert b[..|q| + 1] == q + ".";
    if x != b {
      assert x[..|q| + 1] == x[..|b| + 1][..|q| + 1];
    }
  }

  lemma {:induction false} FieldsLocated(exp: Doc, act: Option<Doc>, parent: string, json: Doc -> string)
    ensures forall r :: r in FieldsWalk(exp, act, parent, json).added ==>
              (r.fieldParent == parent && HasKey(exp, r.fieldName))
              || exists i :: 0 <= i < |exp| && Under(r.fieldParent, parent + "." + exp[i].0)
    decreases DocSize(exp), 4, 0
  {
    if exp != [] {
      EntrySize(exp, 0);
      FieldLocated(exp[0].0, exp[0].1, act, parent, json);
      FieldsLocated(exp[1..], act, parent, json);
      var rest := exp[1..];
      forall r | r in FieldsWalk(exp, act, parent, json).added
        ensures (r.fieldParent == parent && HasKey(exp, r.fieldName))
                || exists i :: 0 <= i < |exp| && Under(r.fieldParent, parent + "." + exp[i].0)
      {
        if r in FieldWalk(exp[0].0, exp[0].1, act, parent, json).added {
          assert LocatedAt(r, parent, exp[0].0);
        } else {
          assert r in FieldsWalk(rest, act, parent, json).added;
          if r.fieldParent == parent && HasKey(rest, r.fieldName) {
            assert forall i :: 0 <= i < |rest| ==> rest[i] == exp[i + 1];
          } else {
            var i :| 0 <= i < |rest| && Under(r.fieldParent, parent + "." + rest[i].0);
            assert rest[i] == exp[i + 1];
          }
        }
      }
    }
  }

  lemma {:induction false} FieldLocated(name: string, ev: Node, act: Option<Doc>, parent: string, json: Doc -> string)
    ensures forall r :: r in FieldWalk(name, ev, act, parent, json).added ==> LocatedAt(r, parent, name)
    decreases NodeSize(ev), 3, 0
  {
    if act.Some? && HasKey(act.value, name) {
      var exps := GetFieldDocuments(ev, json);
      var acts := GetFieldDocuments(Lookup(act.value, name).value, json);
      if exps.Ok? && acts.Ok? && |exps.value| == |acts.value| {
        MaxDefSizeBelow(exps.value, NodeSize(ev));
        PairsLocated(exps.value, acts.value, parent, name, json);
      }
    }
  }

  lemma {:induction false} PairsLocated(exps: seq<Definition>, acts: seq<Definition>, parent: string, name: string,
                                        json: Doc -> string)
    requires |exps| == |acts|
    ensures forall r :: r in PairsWalk(exps, acts, parent, name, json).added ==> LocatedAt(r, parent, name)
    decreases MaxDefSize(exps), 2, |exps|
  {
    if exps != [] {
      MaxDefSizeAtLeast(exps, 0);
      PairLocated(exps[0], acts[0], parent, name, json);
      PairsLocated(exps[1..], acts[1..], parent, name, json);
    }
  }

  /** A pair yields at most one record of its own, and every other record it
      yields sits under `parent + "." + name`. */
  lemma {:induction false} PairLocated(e: Definition, a: Definition, parent: string, name: string, json: Doc -> string)
    ensures forall r :: r in PairWalk(e, a, parent, name, json).added ==> LocatedAt(r, parent, name)
    ensures forall i, j :: 0 <= i < j < |PairWalk(e, a, parent, name, json).added| ==>
              !(PairWalk(e, a, parent, name, json).added[i].fieldParent == parent
                && PairWalk(e, a, parent, name, json).added[j].fieldParent == parent)
    decreases DefSize(e), 1, 1
  {
    AttributeProperties.AtMostOneRecordPerPair(e, a, parent, name, json);
    if e.Some? && a.Some? && CheckAttributes(e.value, a, CheckedKeys, parent, name) == Ok(None)
       && HasKey(e.value, "fields") {
      NestedLocated(e.value, a.value, parent + "." + name, json);
      var added := NestedWalk(e.value, a.value, parent + "." + name, json).added;
      forall r | r in added ensures r.fieldParent != parent {
        assert |r.fieldParent| > |parent|;
      }
    }
  }

  lemma {:induction false} NestedLocated(ed: Doc, ad: Doc, parent: string, json: Doc -> string)
    ensures forall r :: r in NestedWalk(ed, ad, parent, json).added ==> Under(r.fieldParent, parent)
    decreases DocSize(ed), 0, 0
  {
    if HasKey(ed, "fields") && HasKey(ad, "fields") {
      var ef := GetDocument(ed, "fields");
      if ef.Ok? && ef.value.Some? && GetDocument(ad, "fields").Ok? {
        LookupSize(ed, "fields");
        var fields := ef.value.value;
        var af := GetDocument(ad, "fields").value;
        FieldsLocated(fields, af, parent, json);
        forall r | r in FieldsWalk(fields, af, parent, json).added ensures Under(r.fieldParent, parent) {
          if r.fieldParent != parent {
            var i :| 0 <= i < |fields| && Under(r.fieldParent, parent + "." + fields[i].0);
            UnderExtends(r.fieldParent, parent, fields[i].0);
          }
        }
      }
    }
  }

  /** The records of a whole mapping: a top-level field has the parent "",
      and everything nested below field `k` has a parent that starts with
      ".k" (the path the code builds from the empty parent). */
  lemma TopLevelRecords(ed: Doc, ad: Doc, json: Doc -> string)
    requires HasKey(ed, "fields") && HasKey(ad, "fields")
    requires GetDocument(ed, "fields").Ok? && GetDocument(ed, "fields").value.Some?
    ensures var fields := GetDocument(ed, "fields").value.value;
            forall r :: r in NestedWalk(ed, ad, "", json).added ==>
              (r.fieldParent == "" && HasKey(fields, r.fieldName))
              || exists i :: 0 <= i < |fields| && Under(r.fieldParent, "." + fields[i].0)
  {
    var fields := GetDocument(ed, "fields").value.value;
    if GetDocument(ad, "fields").Ok? {
      FieldsLocated(fields, GetDocument(ad, "fields").value, "", json);
      assert forall i :: 0 <= i < |fields| ==> "" + "." + fields[i].0 == "." + fields[i].0;
    }
  }

  /** How many definitions a field value holds: the length of a list, or one. */
  function DefinitionCount(v: Node): nat {
    if v.Arr? then |v.items| else 1
  }

  /** An expected field missing from the actual fields yields exactly one
      "Field not found" record. */
  lemma MissingFieldReported(name: string, ev: Node, act: Doc, parent: string, json: Doc -> string)
    requires forall i :: 0 <= i < |act| ==> act[i].0 != name
    ensures FieldWalk(name, ev, Some(act), parent, json) == Trace([InvalidField(parent, name, FieldNotFound)], None)
  {
  }

  /** Definition lists of different lengths yield exactly one "Field count
      mismatch" record, and no definition of the field is compared. */
  lemma CountMismatchReported(name: string, ev: Node, act: Doc, parent: string, json: Doc -> string)
    requires HasKey(act, name)
    requires GetFieldDocuments(ev, json).Ok? && GetFieldDocuments(Lookup(act, name).value, json).Ok?
    requires DefinitionCount(ev) != DefinitionCount(Lookup(act, name).value)
    ensures FieldWalk(name, ev, Some(act), parent, json) == Trace([InvalidField(parent, name, FieldCountMismatch)], None)
  {
  }

  /** Nested fields are compared only when both definitions have `fields`:
      otherwise a pair whose attributes agree yields nothing. */
  lemma NoNestingWithoutBothFields(ed: Doc, ad: Doc, parent: string, name: string, json: Doc -> string)
    requires !(HasKey(ed, "fields") && HasKey(ad, "fields"))
    requires CheckAttributes(ed, Some(ad), CheckedKeys, parent, name) == Ok(None)
    ensures PairWalk(Some(ed), Some(ad), parent, name, json) == Clean
  {
    assert NestedWalk(ed, ad, parent + "." + name, json) == Clean;
    assert CompareFieldResult(Some(ed), Some(ad), parent, name, json) == FieldCheck(Clean, None);
  }
}
