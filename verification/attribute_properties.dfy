/** What the attribute loop of `compareField` promises: only the six checked
    keys that the expected definition holds are looked at, and the record it
    returns is the one for the first of them that the actual definition lacks
    or holds with another value. */
module AttributeProperties {
  import opened Wrappers
  import opened Bson
  import opened IndexValidator

  /** The actual definition honours the expected one on `key`: either the
      expected one does not have it, or both hold the same non-null value. */
  predicate Agrees(ed: Doc, ad: Doc, key: string) {
    !HasKey(ed, key) || (Lookup(ad, key) == Lookup(ed, key) && Lookup(ed, key) != Some(Null))
  }

  /** The attribute check passes exactly when every checked key agrees. */
  lemma {:induction false} CheckAttributesPass(ed: Doc, ad: Doc, keys: seq<string>, parent: string, name: string)
    ensures CheckAttributes(ed, Some(ad), keys, parent, name) == Ok(None)
        <==> forall i :: 0 <= i < |keys| ==> Agrees(ed, ad, keys[i])
  {
    if keys != [] {
      CheckAttributesPass(ed, ad, keys[1..], parent, name);
      assert forall i :: 0 < i < |keys| ==> keys[i] == keys[1..][i - 1];
    }
  }

  /** The outcome for the first key that does not agree: a missing attribute,
      an exception for a null expected value, or a value mismatch carrying
      both values. All records name the pair's own parent and field. */
  lemma {:induction false} CheckAttributesFirstMismatch(ed: Doc, ad: Doc, keys: seq<string>, j: nat,
                                                        parent: string, name: string)
    requires j < |keys|
    requires forall i :: 0 <= i < j ==> Agrees(ed, ad, keys[i])
    requires !Agrees(ed, ad, keys[j])
    ensures CheckAttributes(ed, Some(ad), keys, parent, name)
         == if !HasKey(ad, keys[j]) then Ok(Some(InvalidField(parent, name, ExpectedFieldNotFound)))
            else if Lookup(ed, keys[j]) == Some(Null) then Err(NullPointer)
            else Ok(Some(InvalidField(parent, name,
                   FieldValueMismatch(Lookup(ed, keys[j]).value, Lookup(ad, keys[j]).value))))
  {
    if j > 0 {
      assert Agrees(ed, ad, keys[0]);
      CheckAttributesFirstMismatch(ed, ad, keys[1..], j - 1, parent, name);
    }
  }

  /** Only the checked keys held by the expected definition matter: keys
      outside the list, on either side, and keys that only the actual
      definition has, never change the outcome. */
  lemma {:induction false} OnlyCheckedKeysMatter(ed1: Doc, ed2: Doc, ad1: Doc, ad2: Doc, keys: seq<string>,
                                                 parent: string, name: string)
    requires forall i :: 0 <= i < |keys| ==> Lookup(ed1, keys[i]) == Lookup(ed2, keys[i])
    requires forall i :: 0 <= i < |keys| && HasKey(ed1, keys[i]) ==> Lookup(ad1, keys[i]) == Lookup(ad2, keys[i])
    ensures CheckAttributes(ed1, Some(ad1), keys, parent, name) == CheckAttributes(ed2, Some(ad2), keys, parent, name)
  {
    if keys != [] {
      assert forall i :: 0 < i < |keys| ==> keys[i] == keys[1..][i - 1];
      OnlyCheckedKeysMatter(ed1, ed2, ad1, ad2, keys[1..], parent, name);
    }
  }

  /** A definition pair yields at most one record of its own, for its own
      parent and field, and when it does, nothing nested is compared. */
  lemma AtMostOneRecordPerPair(e: Definition, a: Definition, parent: string, name: string, json: Doc -> string)
    ensures var c := CompareFieldResult(e, a, parent, name, json);
            c.returned.Some? ==> c.nested == Clean
                                 && c.returned.value.fieldParent == parent
                                 && c.returned.value.fieldName == name
                                 && PairWalk(e, a, parent, name, json) == Trace([c.returned.value], None)
  {
    if e.Some? {
      ReturnedRecordNamesPair(e.value, a, CheckedKeys, parent, name);
    }
  }

  lemma {:induction false} ReturnedRecordNamesPair(ed: Doc, a: Definition, keys: seq<string>, parent: string, name: string)
    ensures var r := CheckAttributes(ed, a, keys, parent, name);
            r.Ok? && r.value.Some? ==> r.value.value.fieldParent == parent && r.value.value.fieldName == name
  {
    if keys != [] {
      ReturnedRecordNamesPair(ed, a, keys[1..], parent, name);
    }
  }
}
