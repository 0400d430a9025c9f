/** What `compareAtlasSearchIndexMapping` and `validateIndexes` promise as a
    whole: structural problems are reported before any field is looked at
    and carry no field records, the verdict is "valid" exactly when no record
    was collected, identical mappings match, and a handful of concrete
    mappings give the results one expects. */
module MappingProperties {
  import opened Wrappers
  import opened Bson
  import opened JsonOrder
  import opened IndexValidator
  import opened SelfComparison
  import OrderProperties
  import AttributeProperties

  /** A failure found before the fields are walked. */
  predicate StructuralFailure(expectedMapping: Option<Doc>, actualMapping: Option<Doc>) {
    expectedMapping.None? || actualMapping.None?
    || !HasKey(actualMapping.value, "dynamic")
    || (GetBoolean(expectedMapping.value, "dynamic").Ok? && GetBoolean(actualMapping.value, "dynamic").Ok?
        && GetBoolean(expectedMapping.value, "dynamic") != GetBoolean(actualMapping.value, "dynamic"))
  }

  /** Structural checks come first, in the order null mappings, missing
      `dynamic` key, different `dynamic` settings, and their results hold no
      field records whatever the fields are. */
  lemma StructuralErrorsFirst(expectedMapping: Option<Doc>, actualMapping: Option<Doc>,
                              invalidFieldsSoFar: seq<InvalidField>, json: Doc -> string)
    ensures var o := CompareAtlasSearchIndexMapping(expectedMapping, actualMapping, invalidFieldsSoFar, json);
            && (expectedMapping.None? || actualMapping.None? ==> o == Returned(Error(NullMappings)))
            && ((expectedMapping.Some? && actualMapping.Some? && !HasKey(actualMapping.value, "dynamic"))
                  ==> o == Returned(Error(NoDynamicKey)))
            && (StructuralFailure(expectedMapping, actualMapping) ==>
                  o.Returned? && !o.results.valid && o.results.invalidFields == [])
  {
  }

  /** The verdict agrees with the records: once the structural checks pass,
      the records are the caller's followed by the walk's, and the mapping is
      valid exactly when there are none. */
  lemma VerdictMatchesRecords(expectedMapping: Option<Doc>, actualMapping: Option<Doc>,
                              invalidFieldsSoFar: seq<InvalidField>, json: Doc -> string)
    requires CompareAtlasSearchIndexMapping(expectedMapping, actualMapping, invalidFieldsSoFar, json).Returned?
    ensures var r := CompareAtlasSearchIndexMapping(expectedMapping, actualMapping, invalidFieldsSoFar, json).results;
            && (r.valid ==> r.invalidFields == [] && r.message == AllMatched)
            && (!StructuralFailure(expectedMapping, actualMapping) ==>
                  r.invalidFields == invalidFieldsSoFar
                                     + NestedWalk(expectedMapping.value, actualMapping.value, "", json).added
                  && (r.valid <==> r.invalidFields == []))
  {
  }

  /** A field list on the expected side only is not compared: with matching
      `dynamic` settings, an actual mapping without `fields` is valid. */
  lemma ActualWithoutFieldsIsValid(expectedMapping: Doc, actualMapping: Doc, json: Doc -> string)
    requires HasKey(actualMapping, "dynamic") && !HasKey(actualMapping, "fields")
    requires GetBoolean(expectedMapping, "dynamic").Ok?
    requires GetBoolean(expectedMapping, "dynamic") == GetBoolean(actualMapping, "dynamic")
    ensures CompareAtlasSearchIndexMapping(Some(expectedMapping), Some(actualMapping), [], json)
         == Returned(Success(AllMatched))
  {
  }

  /** A mapping whose `fields` are well formed matches itself. */
  lemma IdenticalMappingsMatch(m: Doc, json: Doc -> string)
    requires HasKey(m, "dynamic") && GetBoolean(m, "dynamic").Ok?
    requires HasKey(m, "fields") ==> Lookup(m, "fields").value.Obj? && WellFormedFields(Lookup(m, "fields").value.entries)
    ensures CompareAtlasSearchIndexMapping(Some(m), Some(m), [], json) == Returned(Success(AllMatched))
  {
    if HasKey(m, "fields") {
      var fields := Lookup(m, "fields").value.entries;
      forall i | 0 <= i < |fields| ensures Lookup(fields, fields[i].0) == Some(fields[i].1) {
        LookupUnique(fields, i);
      }
      SelfFieldsClean(fields, fields, "", json);
    }
  }

  /** `validateIndexes`: a missing index and an index that is not ready are
      reported without looking at any mapping; a ready index is compared with
      a fresh, empty list of records. */
  lemma ValidateIndexesStages(expectedIndex: Doc, indexes: seq<SearchIndex>, indexName: string, json: Doc -> string)
    ensures var o := ValidateIndexes(expectedIndex, indexes, indexName, json);
            && ((forall i :: 0 <= i < |indexes| ==> indexes[i].name != indexName)
                  ==> o == Returned(Error("Index not found: " + indexName)))
            && (forall i :: (0 <= i < |indexes| && indexes[i].name == indexName
                           && (forall j :: 0 <= j < i ==> indexes[j].name != indexName)) ==>
                  if indexes[i].status != "READY" then o == Returned(Error("Index is not ready: " + indexName))
                  else match (GetDocument(expectedIndex, "mappings"), GetDocument(indexes[i].latestDefinition, "mappings"))
                       case (Ok(em), Ok(am)) => o == CompareAtlasSearchIndexMapping(em, am, [], json)
                       case (Err(f), _) => o == Thrown(f)
                       case (_, Err(f)) => o == Thrown(f))
  {
    forall i | 0 <= i < |indexes| && indexes[i].name == indexName
                 && (forall j :: 0 <= j < i ==> indexes[j].name != indexName)
      ensures FindIndex(indexes, indexName) == Some(indexes[i])
    {
      var r := FindIndex(indexes, indexName);
      var k :| 0 <= k < |indexes| && indexes[k] == r.value && r.value.name == indexName
               && forall j :: 0 <= j < k ==> indexes[j].name != indexName;
      assert !(k < i) && !(i < k);
    }
  }

  // Concrete mappings.

  function Mapping(fields: Doc): Doc {
    [("dynamic", Bool(false)), ("fields", Obj(fields))]
  }

  /** Two mappings with the same `dynamic` setting, the actual one having a
      `dynamic` key, come down to the walk over their fields: its exception,
      or the caller's records followed by its own, or success. */
  lemma MappingIsNestedWalk(expectedMapping: Doc, actualMapping: Doc, invalidFieldsSoFar: seq<InvalidField>,
                            json: Doc -> string)
    requires HasKey(actualMapping, "dynamic") && GetBoolean(expectedMapping, "dynamic").Ok?
    requires GetBoolean(expectedMapping, "dynamic") == GetBoolean(actualMapping, "dynamic")
    ensures var w := NestedWalk(expectedMapping, actualMapping, "", json);
            CompareAtlasSearchIndexMapping(Some(expectedMapping), Some(actualMapping), invalidFieldsSoFar, json)
            == if w.thrown.Some? then Thrown(w.thrown.value)
               else if invalidFieldsSoFar + w.added != [] then
                 Returned(IndexValidationResults(false, FieldsMismatch, invalidFieldsSoFar + w.added))
               else Returned(Success(AllMatched))
  {
  }

  /** When both sides hold a `fields` document, the nested walk is the walk
      over those fields. */
  lemma NestedIsFieldsWalk(ed: Doc, ad: Doc, expectedFields: Doc, actualFields: Doc, parent: string,
                           json: Doc -> string)
    requires Lookup(ed, "fields") == Some(Obj(expectedFields))
    requires Lookup(ad, "fields") == Some(Obj(actualFields))
    ensures NestedWalk(ed, ad, parent, json) == FieldsWalk(expectedFields, Some(actualFields), parent, json)
  {
  }

  /** The concrete mappings `Mapping(f)` come down to the walk over `f`. */
  lemma MappingIsFieldsWalk(expectedFields: Doc, actualFields: Doc, json: Doc -> string)
    ensures var w := FieldsWalk(expectedFields, Some(actualFields), "", json);
            CompareAtlasSearchIndexMapping(Some(Mapping(expectedFields)), Some(Mapping(actualFields)), [], json)
            == if w.thrown.Some? then Thrown(w.thrown.value)
               else if w.added != [] then Returned(IndexValidationResults(false, FieldsMismatch, w.added))
               else Returned(Success(AllMatched))
  {
    var em, am := Mapping(expectedFields), Mapping(actualFields);
    assert Lookup(em, "fields") == Some(Obj(expectedFields));
    assert Lookup(am, "fields") == Some(Obj(actualFields));
    assert GetBoolean(em, "dynamic") == GetBoolean(am, "dynamic") == Ok(Some(false));
    MappingIsNestedWalk(em, am, [], json);
    NestedIsFieldsWalk(em, am, expectedFields, actualFields, "", json);
    assert [] + FieldsWalk(expectedFields, Some(actualFields), "", json).added
        == FieldsWalk(expectedFields, Some(actualFields), "", json).added;
  }

  /** A field with a single definition on the expected side, whose actual
      value is a single definition too, is compared as that one pair. */
  lemma FieldWithSingleDefinitions(name: string, ed: Doc, act: Doc, ad: Doc, parent: string, json: Doc -> string)
    requires Lookup(act, name) == Some(Obj(ad))
    ensures FieldWalk(name, Obj(ed), Some(act), parent, json) == PairWalk(Some(ed), Some(ad), parent, name, json)
  {
    var pair := PairWalk(Some(ed), Some(ad), parent, name, json);
    assert PairsWalk([Some(ed)], [Some(ad)], parent, name, json) == Then(pair, Clean);
    assert pair.added + [] == pair.added;
  }

  /** The concrete one-field documents: one definition on each side is that
      pair of definitions. */
  lemma SingleFieldIsPair(name: string, ed: Doc, ad: Doc, parent: string, json: Doc -> string)
    ensures FieldsWalk([(name, Obj(ed))], Some([(name, Obj(ad))]), parent, json)
         == PairWalk(Some(ed), Some(ad), parent, name, json)
  {
    var exp, act := [(name, Obj(ed))], [(name, Obj(ad))];
    var pair := PairWalk(Some(ed), Some(ad), parent, name, json);
    assert exp[1..] == [];
    assert Lookup(act, name) == Some(Obj(ad));
    FieldWithSingleDefinitions(name, ed, act, ad, parent, json);
    assert FieldsWalk(exp, Some(act), parent, json) == Then(pair, Clean);
    assert pair.added + [] == pair.added;
  }

  /** An attribute the server adds, outside the six checked ones, is ignored. */
  lemma ExtraAttributeScenario(json: Doc -> string)
    ensures var expected := Mapping([("bio", Obj([("type", Str("string")), ("analyzer", Str("lucene.standard"))]))]);
            var actual := Mapping([("bio", Obj([("type", Str("string")), ("analyzer", Str("lucene.standard")),
                                                ("extraInternalKey", Int32(1))]))]);
            CompareAtlasSearchIndexMapping(Some(expected), Some(actual), [], json) == Returned(Success(AllMatched))
  {
    var ed := [("type", Str("string")), ("analyzer", Str("lucene.standard"))];
    var ad := ed + [("extraInternalKey", Int32(1))];
    assert [("type", Str("string")), ("analyzer", Str("lucene.standard")), ("extraInternalKey", Int32(1))] == ad;
    forall i | 0 <= i < |CheckedKeys| ensures AttributeProperties.Agrees(ed, ad, CheckedKeys[i]) {
      OrderProperties.LookupAppend(ed, [("extraInternalKey", Int32(1))], CheckedKeys[i]);
    }
    AttributeProperties.CheckAttributesPass(ed, ad, CheckedKeys, "", "bio");
    SingleFieldIsPair("bio", ed, ad, "", json);
    MappingIsFieldsWalk([("bio", Obj(ed))], [("bio", Obj(ad))], json);
  }

  function Token(): Node { Obj([("type", Str("token"))]) }
  function Facet(): Node { Obj([("type", Str("stringFacet"))]) }

  lemma JobFieldsWellFormed()
    ensures WellFormedEntries([("job", Arr([Token(), Facet()]))])
  {
    assert WellFormedDefinition(Token().entries) && WellFormedDefinition(Facet().entries);
    assert WellFormedItems([Facet()]);
    assert WellFormedItems([Token(), Facet()]);
  }

  lemma JobFieldsClean(json: Doc -> string)
    requires json(Token().entries) != json(Facet().entries)
    ensures FieldsWalk([("job", Arr([Token(), Facet()]))], Some([("job", Arr([Facet(), Token()]))]), "", json) == Clean
  {
    var expected := [("job", Arr([Token(), Facet()]))];
    assert [("job", Arr([Facet(), Token()]))] == expected[0 := (expected[0].0, Arr([Facet(), Token()]))];
    assert multiset([Facet(), Token()]) == multiset([Token(), Facet()]);
    assert OrderProperties.DistinctTexts([Token(), Facet()], json);
    OrderProperties.ActualListOrderIgnored(expected, expected, 0, [Facet(), Token()], "", json);
    JobFieldsWellFormed();
    SelfFieldsClean(expected, expected, "", json);
  }

  /** The two definitions of a faceted field, listed in the other order. */
  lemma ReorderedDefinitionsScenario(json: Doc -> string)
    requires json(Token().entries) != json(Facet().entries)
    ensures CompareAtlasSearchIndexMapping(Some(Mapping([("job", Arr([Token(), Facet()]))])),
                                           Some(Mapping([("job", Arr([Facet(), Token()]))])), [], json)
            == Returned(Success(AllMatched))
  {
    JobFieldsClean(json);
    MappingIsFieldsWalk([("job", Arr([Token(), Facet()]))], [("job", Arr([Facet(), Token()]))], json);
  }

  /** A different `representation` yields one record for `age`, at the top
      level, quoting both values. */
  lemma AgePair(json: Doc -> string)
    ensures PairWalk(Some([("type", Str("number")), ("representation", Str("int64"))]),
                     Some([("type", Str("number")), ("representation", Str("int32"))]), "", "age", json)
         == Trace([InvalidField("", "age", FieldValueMismatch(Str("int64"), Str("int32")))], None)
  {
    var ed := [("type", Str("number")), ("representation", Str("int64"))];
    var ad := [("type", Str("number")), ("representation", Str("int32"))];
    assert CheckedKeys[2] == "representation";
    assert Lookup(ed, "representation") == Some(Str("int64"));
    assert Lookup(ad, "representation") == Some(Str("int32"));
    assert AttributeProperties.Agrees(ed, ad, CheckedKeys[0]);
    assert AttributeProperties.Agrees(ed, ad, CheckedKeys[1]);
    AttributeProperties.CheckAttributesFirstMismatch(ed, ad, CheckedKeys, 2, "", "age");
  }

  lemma ValueMismatchScenario(json: Doc -> string)
    ensures var expected := Mapping([("age", Obj([("type", Str("number")), ("representation", Str("int64"))]))]);
            var actual := Mapping([("age", Obj([("type", Str("number")), ("representation", Str("int32"))]))]);
            var record := InvalidField("", "age", FieldValueMismatch(Str("int64"), Str("int32")));
            && CompareAtlasSearchIndexMapping(Some(expected), Some(actual), [], json)
               == Returned(IndexValidationResults(false, FieldsMismatch, [record]))
            && FieldPath(record) == "age"
  {
    var ed := [("type", Str("number")), ("representation", Str("int64"))];
    var ad := [("type", Str("number")), ("representation", Str("int32"))];
    AgePair(json);
    SingleFieldIsPair("age", ed, ad, "", json);
    MappingIsFieldsWalk([("age", Obj(ed))], [("age", Obj(ad))], json);
  }

  function CityRecord(expectedType: string, actualType: string): InvalidField {
    InvalidField(".address", "city", FieldValueMismatch(Str(expectedType), Str(actualType)))
  }

  function AddressDefinition(cityType: string): Doc {
    [("type", Str("document")), ("fields", Obj([("city", Obj([("type", Str(cityType))]))]))]
  }

  lemma CityPair(expectedType: string, actualType: string, json: Doc -> string)
    requires expectedType != actualType
    ensures PairWalk(Some([("type", Str(expectedType))]), Some([("type", Str(actualType))]), ".address", "city", json)
         == Trace([CityRecord(expectedType, actualType)], None)
  {
    assert CheckedKeys[0] == "type";
    AttributeProperties.CheckAttributesFirstMismatch([("type", Str(expectedType))], [("type", Str(actualType))],
                                                     CheckedKeys, 0, ".address", "city");
  }

  lemma AddressAttributesAgree(expectedType: string, actualType: string)
    ensures CheckAttributes(AddressDefinition(expectedType), Some(AddressDefinition(actualType)), CheckedKeys, "", "address")
         == Ok(None)
  {
    var ea, aa := AddressDefinition(expectedType), AddressDefinition(actualType);
    forall i | 0 <= i < |CheckedKeys| ensures AttributeProperties.Agrees(ea, aa, CheckedKeys[i]) {
      if CheckedKeys[i] == "type" {
        assert Lookup(ea, "type") == Lookup(aa, "type") == Some(Str("document"));
      } else {
        assert Lookup(ea, CheckedKeys[i]).None?;
      }
    }
    AttributeProperties.CheckAttributesPass(ea, aa, CheckedKeys, "", "address");
  }

  lemma AddressNested(expectedType: string, actualType: string, json: Doc -> string)
    requires expectedType != actualType
    ensures NestedWalk(AddressDefinition(expectedType), AddressDefinition(actualType), ".address", json)
         == Trace([CityRecord(expectedType, actualType)], None)
  {
    var ec, ac := [("type", Str(expectedType))], [("type", Str(actualType))];
    assert Lookup(AddressDefinition(expectedType), "fields") == Some(Obj([("city", Obj(ec))]));
    assert Lookup(AddressDefinition(actualType), "fields") == Some(Obj([("city", Obj(ac))]));
    SingleFieldIsPair("city", ec, ac, ".address", json);
    CityPair(expectedType, actualType, json);
  }

  lemma AddressPair(expectedType: string, actualType: string, json: Doc -> string)
    requires expectedType != actualType
    ensures PairWalk(Some(AddressDefinition(expectedType)), Some(AddressDefinition(actualType)), "", "address", json)
         == Trace([CityRecord(expectedType, actualType)], None)
  {
    AddressAttributesAgree(expectedType, actualType);
    assert HasKey(AddressDefinition(expectedType), "fields");
    assert "" + "." + "address" == ".address";
    AddressNested(expectedType, actualType, json);
  }

  /** A mismatch on the `type` of `city` nested in `address` is reported with
      the parent ".address", so its printed path is ".address.city". */
  lemma NestedMismatchScenario(expectedType: string, actualType: string, json: Doc -> string)
    requires expectedType != actualType
    ensures && CompareAtlasSearchIndexMapping(Some(Mapping([("address", Obj(AddressDefinition(expectedType)))])),
                                              Some(Mapping([("address", Obj(AddressDefinition(actualType)))])), [], json)
               == Returned(IndexValidationResults(false, FieldsMismatch, [CityRecord(expectedType, actualType)]))
            && FieldPath(CityRecord(expectedType, actualType)) == ".address.city"
  {
    AddressPair(expectedType, actualType, json);
    SingleFieldIsPair("address", AddressDefinition(expectedType), AddressDefinition(actualType), "", json);
    MappingIsFieldsWalk([("address", Obj(AddressDefinition(expectedType)))],
                        [("address", Obj(AddressDefinition(actualType)))], json);
    assert ".address" + "." + "city" == ".address.city";
  }
}
