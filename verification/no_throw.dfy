/** Well-formed mappings never make the walk throw. The exceptions of the
    Java code come only from malformed input: a value of the wrong kind, a
    null where a document or an attribute is expected. When both sides'
    `fields` are well formed, every step of the walk returns, and so
    `compareAtlasSearchIndexMapping` gives a result. */
module NoThrow {
  import opened Wrappers
  import opened Bson
  import opened IndexValidator
  import opened SelfComparison

  /** The `fields` of a definition or a mapping, if it has them, are a
      well-formed document. */
  ghost predicate WellFormedFieldsOf(d: Doc) {
    HasKey(d, "fields") ==> Lookup(d, "fields").value.Obj? && WellFormedFields(Lookup(d, "fields").value.entries)
  }

  /** No checked attribute of the expected definition is null, so the
      attribute loop returns. */
  lemma {:induction false} AttributesReturn(ed: Doc, ad: Doc, keys: seq<string>, parent: string, name: string)
    requires forall k :: k in keys ==> Lookup(ed, k) != Some(Null)
    ensures CheckAttributes(ed, Some(ad), keys, parent, name).Ok?
  {
    if keys != [] {
      AttributesReturn(ed, ad, keys[1..], parent, name);
    }
  }

  lemma {:induction false} FieldsNoThrow(exp: Doc, act: Doc, parent: string, json: Doc -> string)
    requires WellFormedEntries(exp) && WellFormedEntries(act)
    ensures FieldsWalk(exp, Some(act), parent, json).thrown.None?
    decreases DocSize(exp), 4, 0
  {
    if exp != [] {
      EntrySize(exp, 0);
      WellFormedEntry(exp, 0);
      FieldNoThrow(exp[0].0, exp[0].1, act, parent, json);
      FieldsNoThrow(exp[1..], act, parent, json);
    }
  }

  lemma {:induction false} FieldNoThrow(name: string, ev: Node, act: Doc, parent: string, json: Doc -> string)
    requires WellFormedValue(ev) && WellFormedEntries(act)
    ensures FieldWalk(name, ev, Some(act), parent, json).thrown.None?
    decreases NodeSize(ev), 3, 0
  {
    if HasKey(act, name) {
      var av := Lookup(act, name).value;
      LookupWellFormed(act, name);
      DefinitionsWellFormed(ev, json);
      DefinitionsWellFormed(av, json);
      var exps, acts := GetFieldDocuments(ev, json).value, GetFieldDocuments(av, json).value;
      if |exps| == |acts| {
        MaxDefSizeBelow(exps, NodeSize(ev));
        PairsNoThrow(exps, acts, parent, name, json);
      }
    }
  }

  lemma {:induction false} PairsNoThrow(exps: seq<Definition>, acts: seq<Definition>, parent: string, name: string,
                                        json: Doc -> string)
    requires |exps| == |acts|
    requires forall i :: 0 <= i < |exps| ==> exps[i].Some? && WellFormedDefinition(exps[i].value)
    requires forall i :: 0 <= i < |acts| ==> acts[i].Some? && WellFormedDefinition(acts[i].value)
    ensures PairsWalk(exps, acts, parent, name, json).thrown.None?
    decreases MaxDefSize(exps), 2, |exps|
  {
    if exps != [] {
      MaxDefSizeAtLeast(exps, 0);
      PairNoThrow(exps[0].value, acts[0].value, parent, name, json);
      assert forall i :: 0 < i < |exps| ==> exps[i] == exps[1..][i - 1] && acts[i] == acts[1..][i - 1];
      PairsNoThrow(exps[1..], acts[1..], parent, name, json);
    }
  }

  lemma {:induction false} PairNoThrow(ed: Doc, ad: Doc, parent: string, name: string, json: Doc -> string)
    requires WellFormedDefinition(ed) && WellFormedDefinition(ad)
    ensures PairWalk(Some(ed), Some(ad), parent, name, json).thrown.None?
    decreases DocSize(ed), 1, 1
  {
    AttributesReturn(ed, ad, CheckedKeys, parent, name);
    if CheckAttributes(ed, Some(ad), CheckedKeys, parent, name) == Ok(None) {
      NestedNoThrow(ed, ad, parent + "." + name, json);
    }
  }

  lemma {:induction false} NestedNoThrow(ed: Doc, ad: Doc, parent: string, json: Doc -> string)
    requires WellFormedFieldsOf(ed) && WellFormedFieldsOf(ad)
    ensures NestedWalk(ed, ad, parent, json).thrown.None?
    decreases DocSize(ed), 0, 0
  {
    if HasKey(ed, "fields") && HasKey(ad, "fields") {
      LookupSize(ed, "fields");
      FieldsNoThrow(Lookup(ed, "fields").value.entries, Lookup(ad, "fields").value.entries, parent, json);
    }
  }

  /** Mappings whose `dynamic` values are Booleans (or absent) and whose
      `fields` are well formed give a result: nothing is thrown. */
  lemma WellFormedMappingsReturn(expectedMapping: Doc, actualMapping: Doc, invalidFieldsSoFar: seq<InvalidField>,
                                 json: Doc -> string)
    requires GetBoolean(expectedMapping, "dynamic").Ok? && GetBoolean(actualMapping, "dynamic").Ok?
    requires WellFormedFieldsOf(expectedMapping) && WellFormedFieldsOf(actualMapping)
    ensures CompareAtlasSearchIndexMapping(Some(expectedMapping), Some(actualMapping), invalidFieldsSoFar, json).Returned?
  {
    NestedNoThrow(expectedMapping, actualMapping, "", json);
  }
}
