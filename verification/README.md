# Atlas Search index mapping validator, in Dafny

This project models `IndexValidator`, the helper that checks a live Atlas Search index against the mapping the test suite expects. The helper:

- finds the index by name and requires it to be `READY`;
- checks the `dynamic` setting of the two mappings;
- walks the expected `fields` recursively and collects an `InvalidField` record for every mismatch.

Only six attributes of a field definition are compared (`type`, `normalizer`, `representation`, `analyzer`, `indexDoubles`, `indexIntegers`). A field may hold one definition or a list of them. A list is put in a canonical order (sorted by the JSON text of each definition) and then compared pair by pair.

Modules:

- `Wrappers`: `Option` and `Result`.
- `Bson`: the document tree (`Node`, `Doc`) and its lookups. `GetBoolean` and `GetDocument` are casts: a value of the wrong kind gives a `ClassCast` fault.
- `JsonOrder`: the `String.compareTo` order on texts, and the stable sort by the JSON text of a document. The serialiser is a parameter `json`.
- `IndexValidator`: the validator as functions.
  - `FieldsWalk`, `FieldWalk`, `PairsWalk`, `PairWalk`, `CompareFieldResult` and `NestedWalk` return a `Trace`: the records one call appends to the shared list, and the exception it ends in, if any.
  - `CompareAtlasSearchIndexMapping` and `ValidateIndexes` return an `Outcome`: a result, or a thrown `Fault`.
- `FieldComparator`: `compareFields` and `compareField` as loops that append to the list passed in. Each method is proved to append exactly what the functions say.
- `AttributeProperties`, `RecordLocation`, `OrderProperties`, `SelfComparison`, `NoThrow` and `MappingProperties`: the properties, stated as lemmas.

Three points where the code's behaviour is easy to misread:

- **Paths of nested records.** The code builds the parent of a nested field with `"%s.%s".formatted(fieldParent, fieldName)`, starting from the empty parent. A mismatch on `city` inside `address` therefore has the parent `.address`, and `printResults` shows `.address.city`, not `address.city` (`MappingProperties.NestedMismatchScenario`).
- **The reassigned `fieldParent`.** `compareField` assigns a new value to its parameter `fieldParent`. In Java that is local to the call, so every definition pair of a field is compared under the same parent, and each pair's nested fields are walked independently. There is no leak between pairs.
- **Exceptions.** Malformed mappings do make the public entry points throw: `ClassCastException` from a cast, `NullPointerException` from a null value. The model returns `Thrown(fault)` for these. Well-formed mappings never throw (`NoThrow.WellFormedMappingsReturn`).

## Model

| member | source | states |
|---|---|---|
| Bson.Lookup | advanced-search-seed-data-test/src/main/java/com/mycodefu/atlassearch/util/IndexValidator.java:123-124 | `Document.get` finds nothing exactly when no entry has the key; what it finds is an entry of the document |
| JsonOrder.SortByJson | advanced-search-seed-data-test/src/main/java/com/mycodefu/atlassearch/util/IndexValidator.java:144 | the sorted definitions are a permutation of the input, in ascending `compareTo` order of their JSON texts |
| JsonOrder.SortIgnoresOrder | advanced-search-seed-data-test/src/main/java/com/mycodefu/atlassearch/util/IndexValidator.java:144 | when the documents have distinct JSON texts, two permutations of the same documents sort to the same list |
| JsonOrder.SortKeepsEqualTexts | advanced-search-seed-data-test/src/main/java/com/mycodefu/atlassearch/util/IndexValidator.java:144 | the sort is stable: documents that all share one JSON text keep their input order |
| IndexValidator.GetFieldDocuments | advanced-search-seed-data-test/src/main/java/com/mycodefu/atlassearch/util/IndexValidator.java:139-148 | a single document becomes a one-element list; a list keeps its length, holds only its own elements and is sorted by JSON text; every definition is smaller than the value |
| IndexValidator.GetFieldDocumentsKeepsElements | advanced-search-seed-data-test/src/main/java/com/mycodefu/atlassearch/util/IndexValidator.java:141-145 | a list of documents is always accepted, and the result holds the list's elements, each exactly as often as the list does |
| IndexValidator.GetFieldDocumentsThrows | advanced-search-seed-data-test/src/main/java/com/mycodefu/atlassearch/util/IndexValidator.java:141-147 | the call throws exactly when the value is neither a document nor a list of documents and nulls, or is a list of two or more elements holding a null |
| IndexValidator.FindIndex | advanced-search-seed-data-test/src/main/java/com/mycodefu/atlassearch/util/IndexValidator.java:48-50 | nothing is found exactly when no index has the name; otherwise the result is the first index with that name |
| IndexValidator.FieldPath | advanced-search-seed-data-test/src/main/java/com/mycodefu/atlassearch/util/IndexValidator.java:29-30 | the printed path is the name alone under an empty parent, or `parent.` followed by the name |
| Bson.HasKey | advanced-search-seed-data-test/src/main/java/com/mycodefu/atlassearch/util/IndexValidator.java:75 | no contract of its own: `Document.containsKey`, an entry with the key exists; `Bson.Lookup` states when, and `MappingProperties.StructuralErrorsFirst`, `RecordLocation.MissingFieldReported` and `RecordLocation.NoNestingWithoutBothFields` state what each `containsKey` test decides |
| IndexValidator.Error | advanced-search-seed-data-test/src/main/java/com/mycodefu/atlassearch/util/IndexValidator.java:21 | no contract of its own: `IndexValidationResults.error`, an invalid result with no records; `MappingProperties.StructuralErrorsFirst` and `ValidateIndexesStages` state when it is returned |
| IndexValidator.Success | advanced-search-seed-data-test/src/main/java/com/mycodefu/atlassearch/util/IndexValidator.java:22 | no contract of its own: `IndexValidationResults.success`, a valid result with no records; `MappingProperties.ActualWithoutFieldsIsValid`, `IdenticalMappingsMatch` and `VerdictMatchesRecords` state when it is returned |
| Bson.GetBoolean | advanced-search-seed-data-test/src/main/java/com/mycodefu/atlassearch/util/IndexValidator.java:79 | no contract of its own: the cast `getBoolean` performs, absent or null giving null and a non-Boolean throwing; its effect on the mapping check is stated by `MappingProperties.StructuralErrorsFirst` |
| Bson.GetDocument | advanced-search-seed-data-test/src/main/java/com/mycodefu/atlassearch/util/IndexValidator.java:131-132 | no contract of its own: the cast `get(key, Document.class)`, absent or null giving null and a non-document throwing; used by `NestedWalk` and `ValidateIndexes`, whose lemmas state its effect |
| JsonOrder.TextLeq | advanced-search-seed-data-test/src/main/java/com/mycodefu/atlassearch/util/IndexValidator.java:144 | no contract of its own: `compareTo(...) <= 0` on texts; its reflexivity, totality, antisymmetry and transitivity are the lemmas `TextLeqReflexive`, `TextLeqTotal`, `TextLeqAntisymmetric` and `TextLeqTransitive` |
| IndexValidator.CheckAttributes | advanced-search-seed-data-test/src/main/java/com/mycodefu/atlassearch/util/IndexValidator.java:118-129 | no contract of its own: the attribute loop; `AttributeProperties.CheckAttributesPass`, `CheckAttributesFirstMismatch` and `OnlyCheckedKeysMatter` state its behaviour |
| IndexValidator.FieldsWalk | advanced-search-seed-data-test/src/main/java/com/mycodefu/atlassearch/util/IndexValidator.java:94-115 | no contract of its own: what `compareFields` appends; `FieldComparator.CompareFields` is proved to append exactly this, and `RecordLocation.FieldsLocated`, `OrderProperties.FieldsWalkCongruence` and `SelfComparison.SelfFieldsClean` state its behaviour |
| IndexValidator.FieldWalk | advanced-search-seed-data-test/src/main/java/com/mycodefu/atlassearch/util/IndexValidator.java:95-113 | no contract of its own: one expected field; `RecordLocation.MissingFieldReported`, `CountMismatchReported` and `FieldLocated` state its behaviour |
| IndexValidator.PairsWalk | advanced-search-seed-data-test/src/main/java/com/mycodefu/atlassearch/util/IndexValidator.java:105-111 | no contract of its own: the pairwise loop; `RecordLocation.PairsLocated` and `SelfComparison.SelfPairsClean` state its behaviour |
| IndexValidator.PairWalk | advanced-search-seed-data-test/src/main/java/com/mycodefu/atlassearch/util/IndexValidator.java:109-110 | no contract of its own: one pair, then its returned record; `AttributeProperties.AtMostOneRecordPerPair` and `RecordLocation.PairLocated` state its behaviour |
| IndexValidator.CompareFieldResult | advanced-search-seed-data-test/src/main/java/com/mycodefu/atlassearch/util/IndexValidator.java:117-137 | no contract of its own: what `compareField` returns and appends; `FieldComparator.CompareField` is proved to do exactly this, and `RecordLocation.NoNestingWithoutBothFields` states when it recurses |
| IndexValidator.NestedWalk | advanced-search-seed-data-test/src/main/java/com/mycodefu/atlassearch/util/IndexValidator.java:130-134 | no contract of its own: the recursion into `fields` when both sides have them; `RecordLocation.NestedLocated` and `SelfComparison.SelfNestedClean` state its behaviour |
| IndexValidator.CompareAtlasSearchIndexMapping | advanced-search-seed-data-test/src/main/java/com/mycodefu/atlassearch/util/IndexValidator.java:71-92 | no contract of its own: `MappingProperties.StructuralErrorsFirst`, `VerdictMatchesRecords`, `ActualWithoutFieldsIsValid` and `IdenticalMappingsMatch` state its behaviour |
| IndexValidator.ValidateIndexes | advanced-search-seed-data-test/src/main/java/com/mycodefu/atlassearch/util/IndexValidator.java:37-65 | no contract of its own: `MappingProperties.ValidateIndexesStages` states its behaviour |
| FieldComparator.CompareFields | advanced-search-seed-data-test/src/main/java/com/mycodefu/atlassearch/util/IndexValidator.java:94-115 | the list afterwards is the caller's list followed by the walk's records, in order; the exception is the walk's |
| FieldComparator.CompareNamedField | advanced-search-seed-data-test/src/main/java/com/mycodefu/atlassearch/util/IndexValidator.java:96-112 | one expected field appends exactly what `FieldWalk` says: one "not found" record, one "count mismatch" record, or the pairwise records |
| FieldComparator.ComparePairs | advanced-search-seed-data-test/src/main/java/com/mycodefu/atlassearch/util/IndexValidator.java:105-111 | each pair appends its nested records, then the record `compareField` returned, if any; it stops at the first exception |
| FieldComparator.CompareField | advanced-search-seed-data-test/src/main/java/com/mycodefu/atlassearch/util/IndexValidator.java:117-137 | the record returned, the nested records appended and the exception are those of `CompareFieldResult` |
| AttributeProperties.CheckAttributesPass | advanced-search-seed-data-test/src/main/java/com/mycodefu/atlassearch/util/IndexValidator.java:118-129 | a definition passes the attribute check exactly when, for every checked key it has, the actual definition holds the same non-null value |
| AttributeProperties.CheckAttributesFirstMismatch | advanced-search-seed-data-test/src/main/java/com/mycodefu/atlassearch/util/IndexValidator.java:118-127 | the first disagreeing key decides: a missing key gives "Expected field not found", a null expected value throws, and a different value gives a value mismatch carrying both values |
| AttributeProperties.OnlyCheckedKeysMatter | advanced-search-seed-data-test/src/main/java/com/mycodefu/atlassearch/util/IndexValidator.java:16-17 | attributes outside the six checked keys, and checked keys that only the actual definition has, never change the outcome |
| AttributeProperties.AtMostOneRecordPerPair | advanced-search-seed-data-test/src/main/java/com/mycodefu/atlassearch/util/IndexValidator.java:117-129 | when a pair returns a record, it is the only record of that pair, it names the pair's parent and field, and nothing nested is compared |
| RecordLocation.FieldsLocated | advanced-search-seed-data-test/src/main/java/com/mycodefu/atlassearch/util/IndexValidator.java:94-115 | every record names an expected field under the current parent, or lies under `parent.k` for an expected field `k` |
| RecordLocation.FieldLocated | advanced-search-seed-data-test/src/main/java/com/mycodefu/atlassearch/util/IndexValidator.java:95-112 | the records of one expected field are about that field, or lie under `parent.name` |
| RecordLocation.PairsLocated | advanced-search-seed-data-test/src/main/java/com/mycodefu/atlassearch/util/IndexValidator.java:105-111 | the records of the pairwise loop are about the field, or lie under `parent.name` |
| RecordLocation.PairLocated | advanced-search-seed-data-test/src/main/java/com/mycodefu/atlassearch/util/IndexValidator.java:130-135 | a pair yields at most one record at its own level; its nested records lie under `parent.name` |
| RecordLocation.NestedLocated | advanced-search-seed-data-test/src/main/java/com/mycodefu/atlassearch/util/IndexValidator.java:130-134 | every record of a nested walk lies under the parent it was given |
| RecordLocation.TopLevelRecords | advanced-search-seed-data-test/src/main/java/com/mycodefu/atlassearch/util/IndexValidator.java:82-86 | a mapping's records are top-level fields with the parent "", or lie under `.k`, with a leading dot, for a top-level field `k` |
| RecordLocation.MissingFieldReported | advanced-search-seed-data-test/src/main/java/com/mycodefu/atlassearch/util/IndexValidator.java:96-97 | an expected field that is absent from the actual fields yields exactly one "Field not found" record |
| RecordLocation.CountMismatchReported | advanced-search-seed-data-test/src/main/java/com/mycodefu/atlassearch/util/IndexValidator.java:102-103 | definition lists of different lengths yield exactly one "Field count mismatch" record and no pairwise comparison |
| RecordLocation.NoNestingWithoutBothFields | advanced-search-seed-data-test/src/main/java/com/mycodefu/atlassearch/util/IndexValidator.java:130 | nested fields are compared only when both definitions have `fields` |
| OrderProperties.FieldsWalkCongruence | advanced-search-seed-data-test/src/main/java/com/mycodefu/atlassearch/util/IndexValidator.java:95-100 | the walk sees the actual fields only under the expected names, and every value only as its definition list |
| OrderProperties.ExtraActualFieldsIgnored | advanced-search-seed-data-test/src/main/java/com/mycodefu/atlassearch/util/IndexValidator.java:95-96 | actual fields with names the expected mapping does not use change nothing that is reported |
| OrderProperties.ReplaceExpectedValue | advanced-search-seed-data-test/src/main/java/com/mycodefu/atlassearch/util/IndexValidator.java:99 | an expected value can be replaced by another with the same definition list without changing the walk |
| OrderProperties.ReplaceActualValue | advanced-search-seed-data-test/src/main/java/com/mycodefu/atlassearch/util/IndexValidator.java:100 | an actual value can be replaced by another with the same definition list without changing the walk |
| OrderProperties.SingleIsOneElementList | advanced-search-seed-data-test/src/main/java/com/mycodefu/atlassearch/util/IndexValidator.java:141-147 | a single definition and a one-element list holding it give the same definition list |
| OrderProperties.GetFieldDocumentsIgnoresOrder | advanced-search-seed-data-test/src/main/java/com/mycodefu/atlassearch/util/IndexValidator.java:141-145 | when the list's documents have distinct JSON texts, permuting the list does not change its definition list, its exception included |
| OrderProperties.ExpectedListOrderIgnored | advanced-search-seed-data-test/src/main/java/com/mycodefu/atlassearch/util/IndexValidator.java:99-111 | reordering the definitions of an expected field, whose documents have distinct JSON texts, does not change the walk |
| OrderProperties.ActualListOrderIgnored | advanced-search-seed-data-test/src/main/java/com/mycodefu/atlassearch/util/IndexValidator.java:100-111 | reordering the definitions of an actual field, whose documents have distinct JSON texts, does not change the walk |
| OrderProperties.SingleExpectedDefinitionAsList | advanced-search-seed-data-test/src/main/java/com/mycodefu/atlassearch/util/IndexValidator.java:139-148 | an expected single definition is compared like the one-element list holding it, whatever the actual side |
| OrderProperties.SingleActualDefinitionAsList | advanced-search-seed-data-test/src/main/java/com/mycodefu/atlassearch/util/IndexValidator.java:139-148 | an actual single definition is compared like the one-element list holding it |
| SelfComparison.SelfFieldsClean | advanced-search-seed-data-test/src/main/java/com/mycodefu/atlassearch/util/IndexValidator.java:94-115 | well-formed fields compared with a document holding the same values yield no record and no exception |
| SelfComparison.SelfFieldClean | advanced-search-seed-data-test/src/main/java/com/mycodefu/atlassearch/util/IndexValidator.java:96-112 | a well-formed field compared with itself yields nothing |
| SelfComparison.SelfPairsClean | advanced-search-seed-data-test/src/main/java/com/mycodefu/atlassearch/util/IndexValidator.java:105-111 | well-formed definitions compared pairwise with themselves yield nothing |
| SelfComparison.SelfDefinitionClean | advanced-search-seed-data-test/src/main/java/com/mycodefu/atlassearch/util/IndexValidator.java:117-137 | a well-formed definition compared with itself returns no record and appends nothing |
| SelfComparison.SelfNestedClean | advanced-search-seed-data-test/src/main/java/com/mycodefu/atlassearch/util/IndexValidator.java:130-134 | the nested fields of a well-formed definition, compared with themselves, yield nothing |
| NoThrow.FieldsNoThrow | advanced-search-seed-data-test/src/main/java/com/mycodefu/atlassearch/util/IndexValidator.java:94-115 | well-formed expected fields walked against well-formed actual fields never throw |
| NoThrow.FieldNoThrow | advanced-search-seed-data-test/src/main/java/com/mycodefu/atlassearch/util/IndexValidator.java:95-113 | a well-formed expected field against well-formed actual fields never throws: the lookup, both casts and the pairwise loop all return |
| NoThrow.PairsNoThrow | advanced-search-seed-data-test/src/main/java/com/mycodefu/atlassearch/util/IndexValidator.java:105-111 | well-formed definitions compared pairwise never throw |
| NoThrow.PairNoThrow | advanced-search-seed-data-test/src/main/java/com/mycodefu/atlassearch/util/IndexValidator.java:117-137 | comparing two well-formed definitions never throws: no checked attribute is null, and nested `fields` are documents |
| NoThrow.AttributesReturn | advanced-search-seed-data-test/src/main/java/com/mycodefu/atlassearch/util/IndexValidator.java:118-129 | the attribute loop returns when no checked attribute of the expected definition is null |
| NoThrow.NestedNoThrow | advanced-search-seed-data-test/src/main/java/com/mycodefu/atlassearch/util/IndexValidator.java:130-134 | the nested walk never throws when both sides' `fields`, if present, are well-formed documents |
| NoThrow.WellFormedMappingsReturn | advanced-search-seed-data-test/src/main/java/com/mycodefu/atlassearch/util/IndexValidator.java:71-92 | mappings with Boolean or absent `dynamic` values and well-formed `fields` give a result: the validator throws nothing |
| SelfComparison.DefinitionsWellFormed | advanced-search-seed-data-test/src/main/java/com/mycodefu/atlassearch/util/IndexValidator.java:139-148 | a well-formed field value gives a list of well-formed definitions with no null, so `getFieldDocuments` does not throw |
| MappingProperties.StructuralErrorsFirst | advanced-search-seed-data-test/src/main/java/com/mycodefu/atlassearch/util/IndexValidator.java:72-81 | null mappings, then a missing `dynamic` key, then different `dynamic` settings are reported before any field, as invalid results without records |
| MappingProperties.VerdictMatchesRecords | advanced-search-seed-data-test/src/main/java/com/mycodefu/atlassearch/util/IndexValidator.java:82-91 | past the structural checks, the records are the caller's followed by the walk's, and the mapping is valid exactly when there are none |
| MappingProperties.ActualWithoutFieldsIsValid | advanced-search-seed-data-test/src/main/java/com/mycodefu/atlassearch/util/IndexValidator.java:82-90 | with equal `dynamic` settings, an actual mapping without `fields` is valid whatever the expected fields are |
| MappingProperties.IdenticalMappingsMatch | advanced-search-seed-data-test/src/main/java/com/mycodefu/atlassearch/util/IndexValidator.java:71-91 | a mapping with a `dynamic` key and well-formed fields matches itself |
| MappingProperties.ValidateIndexesStages | advanced-search-seed-data-test/src/main/java/com/mycodefu/atlassearch/util/IndexValidator.java:48-64 | a missing index gives "Index not found", an index that is not ready gives "Index is not ready", and a ready index is compared by its `mappings` with an empty list |
| MappingProperties.MappingIsNestedWalk | advanced-search-seed-data-test/src/main/java/com/mycodefu/atlassearch/util/IndexValidator.java:79-91 | two mappings whose `dynamic` values read alike without a cast failure, the actual one having the key, come down to the nested walk: its exception, or the caller's records followed by the walk's as a `FieldsMismatch` failure, or success |
| MappingProperties.NestedIsFieldsWalk | advanced-search-seed-data-test/src/main/java/com/mycodefu/atlassearch/util/IndexValidator.java:130-134 | when both documents hold a `fields` document, the nested walk under a parent is the walk over those two field documents under that parent (the mapping comparison takes the same step at lines 82-85) |
| MappingProperties.MappingIsFieldsWalk | advanced-search-seed-data-test/src/main/java/com/mycodefu/atlassearch/util/IndexValidator.java:82-91 | for the concrete mappings holding only `dynamic: false` and `fields`, the comparison is decided by the walk over the two field documents |
| MappingProperties.FieldWithSingleDefinitions | advanced-search-seed-data-test/src/main/java/com/mycodefu/atlassearch/util/IndexValidator.java:95-111 | an expected field holding one definition, whose actual value is one definition too, is compared as exactly that pair |
| MappingProperties.SingleFieldIsPair | advanced-search-seed-data-test/src/main/java/com/mycodefu/atlassearch/util/IndexValidator.java:99-110 | for one-entry field documents with one definition on each side, the walk is that one pair |
| MappingProperties.ExtraAttributeScenario | advanced-search-seed-data-test/src/main/java/com/mycodefu/atlassearch/util/IndexValidator.java:118-129 | a `bio` definition with an extra server attribute matches |
| MappingProperties.ReorderedDefinitionsScenario | advanced-search-seed-data-test/src/main/java/com/mycodefu/atlassearch/util/IndexValidator.java:141-146 | a `job` field whose two definitions, with different JSON texts, are listed in the other order matches |
| MappingProperties.ValueMismatchScenario | advanced-search-seed-data-test/src/main/java/com/mycodefu/atlassearch/util/IndexValidator.java:125-126 | `age` with representation int64 against int32 yields one record, path `age`, carrying both values |
| MappingProperties.NestedMismatchScenario | advanced-search-seed-data-test/src/main/java/com/mycodefu/atlassearch/util/IndexValidator.java:130-134 | a different `type` of `city` inside `address` yields one record with parent `.address` and path `.address.city` |

## Left out

- Reading the expected index from the classpath (`readResourceAsString`, lines 150-161) and `Document.parse` (line 46) are left out. The parsed expected index document is a parameter.
- The server call `listSearchIndexes` is left out. Its answer is a parameter: a sequence of `SearchIndex` records that always have a name, a status and a `latestDefinition` document. The exceptions the Java code raises when one of these is missing are not modelled.
- Printing (`printResults`) is left out apart from the path it builds (`FieldPath`). A record's parent is never null, so the `null` test on line 29 has no counterpart.
- A value mismatch record keeps the two values. The formatted message text (`Object.toString` of each value) is not modelled.
- `Document.toJson` is a parameter `json`. Java's `String.compareTo` compares UTF-16 code units, while the model compares Dafny characters; the two agree on the Basic Multilingual Plane.
- OrderProperties.GetFieldDocumentsIgnoresOrder: this and the other order lemmas assume that the documents of the list have distinct JSON texts. Two distinct documents can share a JSON text, for example an `Int32` and an `Int64` of the same number in relaxed JSON; their order, and so the pairing, can then depend on the input order, since the sort is stable (`JsonOrder.SortKeepsEqualTexts`).
- Order inside nested lists is not claimed to be irrelevant. Reordering a nested list changes the enclosing definition's JSON text, and so can change how the enclosing list is paired.
- AttributeProperties.OnlyCheckedKeysMatter: unchecked attributes are ignored for one definition pair, not for a field's list. An extra attribute, or the same attributes in another key order, changes a definition's JSON text, and so can change which definitions are paired. For example, expected `f: [{type: "string", analyzer: "english"}, {type: "string", analyzer: "standard"}]` against an actual list where the english definition carries `indexOptions` before `analyzer` sorts the actual list as standard, english, and gives two value-mismatch records.
- `Object.equals` on attribute values (line 125) is modelled as equality of `Node` values. Java's `Document.equals` ignores key order inside an embedded document, and `Node` equality does not. Doubles and decimals are not modelled; `Int32` and `Int64` stay distinct, as `Integer` and `Long` do in Java.
- The `!=` on the two `Boolean` values at line 79 compares references. It is modelled as equality of the optional values, which is what it computes for the cached `Boolean.TRUE` and `Boolean.FALSE`.
- A null `invalidFieldsSoFar` list (line 87) cannot be passed to the model. The list is a sequence and is never null.
- When the walk throws, `CompareAtlasSearchIndexMapping` yields only the fault. The records that reached the shared Java list before the exception are visible from the `FieldComparator` methods, not from the `Outcome`.
- Integer widths of values are not modelled, apart from `Int32` and `Int64` being different kinds.
