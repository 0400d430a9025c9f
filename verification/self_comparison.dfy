/** A well-formed mapping compared with itself reports nothing: the
    comparison is reflexive. A well-formed `fields` document has unique keys
    and a document or a list of documents under each; a well-formed
    definition holds no null checked attribute, and its `fields`, if any, are
    well formed. */
module SelfComparison {
  import opened Wrappers
  import opened Bson
  import opened IndexValidator

  ghost predicate WellFormedFields(fields: Doc)
    decreases DocSize(fields), 2
  {
    UniqueKeys(fields) && WellFormedEntries(fields)
  }

  ghost predicate WellFormedEntries(fields: Doc)
    decreases DocSize(fields), 1
  {
    fields == [] || (WellFormedValue(fields[0].1) && WellFormedEntries(fields[1..]))
  }

  ghost predicate WellFormedValue(v: Node)
    decreases NodeSize(v), 0
  {
    match v
    case Obj(d) => WellFormedDefinition(d)
    case Arr(items) => WellFormedItems(items)
    case _ => false
  }

  ghost predicate WellFormedItems(items: seq<Node>)
    decreases ItemsSize(items), 1
  {
    if items == [] then true
    else
      assert ItemsSize(items) == NodeSize(items[0]) + ItemsSize(items[1..]);
      items[0].Obj? && WellFormedDefinition(items[0].entries) && WellFormedItems(items[1..])
  }

  ghost predicate WellFormedDefinition(d: Doc)
    decreases DocSize(d), 3
  {
    if exists k :: k in CheckedKeys && Lookup(d, k) == Some(Null) then false
    else if !HasKey(d, "fields") then true
    else
      LookupSize(d, "fields");
      Lookup(d, "fields").value.Obj? && WellFormedFields(Lookup(d, "fields").value.entries)
  }

  lemma {:induction false} WellFormedEntry(fields: Doc, i: nat)
    requires WellFormedEntries(fields) && i < |fields|
    ensures WellFormedValue(fields[i].1)
  {
    if i > 0 {
      WellFormedEntry(fields[1..], i - 1);
    }
  }

  lemma {:induction false} WellFormedItem(items: seq<Node>, x: Node)
    requires WellFormedItems(items) && x in items
    ensures x.Obj? && WellFormedDefinition(x.entries)
  {
    if items[0] != x {
      WellFormedItem(items[1..], x);
    }
  }

  /** A value found in well-formed entries is well formed. */
  lemma LookupWellFormed(d: Doc, key: string)
    requires WellFormedEntries(d) && HasKey(d, key)
    ensures WellFormedValue(Lookup(d, key).value)
  {
    var i :| 0 <= i < |d| && d[i] == (key, Lookup(d, key).value);
    WellFormedEntry(d, i);
  }

  /** A well-formed value gives a list of well-formed definitions, with no
      null among them. */
  lemma DefinitionsWellFormed(v: Node, json: Doc -> string)
    requires WellFormedValue(v)
    ensures GetFieldDocuments(v, json).Ok?
    ensures forall i :: 0 <= i < |GetFieldDocuments(v, json).value| ==>
              GetFieldDocuments(v, json).value[i].Some? && WellFormedDefinition(GetFieldDocuments(v, json).value[i].value)
  {
    var exps := GetFieldDocuments(v, json);
    if v.Arr? {
      assert !exists i :: 0 <= i < |v.items| && (NotDocument(v.items[i]) || v.items[i].Null?) by {
        forall i | 0 <= i < |v.items| ensures v.items[i].Obj? {
          WellFormedItem(v.items, v.items[i]);
        }
      }
      forall i | 0 <= i < |exps.value| ensures exps.value[i].Some? && WellFormedDefinition(exps.value[i].value) {
        WellFormedItem(v.items, if exps.value[i].Some? then Obj(exps.value[i].value) else Null);
      }
    }
  }

  lemma {:induction false} AttributesOfSelf(d: Doc, keys: seq<string>, parent: string, name: string)
    requires forall k :: k in keys ==> Lookup(d, k) != Some(Null)
    ensures CheckAttributes(d, Some(d), keys, parent, name) == Ok(None)
  {
    if keys != [] {
      AttributesOfSelf(d, keys[1..], parent, name);
    }
  }

  lemma {:induction false} SelfFieldsClean(exp: Doc, full: Doc, parent: string, json: Doc -> string)
    requires WellFormedEntries(exp)
    requires forall i :: 0 <= i < |exp| ==> Lookup(full, exp[i].0) == Some(exp[i].1)
    ensures FieldsWalk(exp, Some(full), parent, json) == Clean
    decreases DocSize(exp), 4, 0
  {
    if exp != [] {
      EntrySize(exp, 0);
      SelfFieldClean(exp[0].0, exp[0].1, full, parent, json);
      assert forall i :: 0 < i < |exp| ==> exp[i] == exp[1..][i - 1];
      SelfFieldsClean(exp[1..], full, parent, json);
    }
  }

  lemma {:induction false} SelfFieldClean(name: string, v: Node, full: Doc, parent: string, json: Doc -> string)
    requires WellFormedValue(v) && Lookup(full, name) == Some(v)
    ensures FieldWalk(name, v, Some(full), parent, json) == Clean
    decreases NodeSize(v), 3, 0
  {
    var exps := GetFieldDocuments(v, json);
    DefinitionsWellFormed(v, json);
    MaxDefSizeBelow(exps.value, NodeSize(v));
    SelfPairsClean(exps.value, parent, name, json);
  }

  lemma {:induction false} SelfPairsClean(exps: seq<Definition>, parent: string, name: string, json: Doc -> string)
    requires forall i :: 0 <= i < |exps| ==> exps[i].Some? && WellFormedDefinition(exps[i].value)
    ensures PairsWalk(exps, exps, parent, name, json) == Clean
    decreases MaxDefSize(exps), 2, |exps|
  {
    if exps != [] {
      MaxDefSizeAtLeast(exps, 0);
      SelfDefinitionClean(exps[0].value, parent, name, json);
      assert forall i :: 0 < i < |exps| ==> exps[i] == exps[1..][i - 1];
      SelfPairsClean(exps[1..], parent, name, json);
    }
  }

  lemma {:induction false} SelfDefinitionClean(d: Doc, parent: string, name: string, json: Doc -> string)
    requires WellFormedDefinition(d)
    ensures PairWalk(Some(d), Some(d), parent, name, json) == Clean
    decreases DocSize(d), 1, 1
  {
    AttributesOfSelf(d, CheckedKeys, parent, name);
    SelfNestedClean(d, parent + "." + name, json);
  }

  lemma {:induction false} SelfNestedClean(d: Doc, parent: string, json: Doc -> string)
    requires WellFormedDefinition(d)
    ensures NestedWalk(d, d, parent, json) == Clean
    decreases DocSize(d), 0, 0
  {
    if HasKey(d, "fields") {
      LookupSize(d, "fields");
      var fields := Lookup(d, "fields").value.entries;
      forall i | 0 <= i < |fields| ensures Lookup(fields, fields[i].0) == Some(fields[i].1) {
        LookupUnique(fields, i);
      }
      SelfFieldsClean(fields, fields, parent, json);
    }
  }
}
