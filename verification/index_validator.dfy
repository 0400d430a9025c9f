/** The search-index mapping validator (IndexValidator.java) as functions.

    The validator compares an expected search-index mapping with the one the
    server reports, field by field, and collects the mismatches it finds in
    a list. In the Java code the list is an ArrayList that `compareFields`
    and `compareField` append to; here a `Trace` says what one call appends,
    and whether the call ends in an exception (a malformed mapping makes the
    Java code throw a ClassCastException or a NullPointerException). The
    methods in module `FieldComparator` do the same appends step by step and
    are proved to agree with these functions. */
module IndexValidator {
  import opened Wrappers
  import opened Bson
  import opened JsonOrder

  /** The only attributes of a field definition that are compared; the
      server may add others for its own bookkeeping. */
  const CheckedKeys: seq<string> :=
    ["type", "normalizer", "representation", "analyzer", "indexDoubles", "indexIntegers"]

  /** The texts of the four mismatch messages. */
  datatype Message =
    | FieldNotFound          // "Field not found in actual mappings"
    | FieldCountMismatch     // "Field count mismatch"
    | ExpectedFieldNotFound  // "Expected field not found in actual mappings"
    | FieldValueMismatch(expected: Node, actual: Node)
                             // "Field value mismatch. Expected: '<expected>', actual: '<actual>'"

  /** One mismatch, located by the dotted path of its parent and its name. */
  datatype InvalidField = InvalidField(fieldParent: string, fieldName: string, message: Message)

  datatype IndexValidationResults =
    IndexValidationResults(valid: bool, message: string, invalidFields: seq<InvalidField>)

  /** `IndexValidationResults.error`: invalid, with no field records. */
  function Error(message: string): IndexValidationResults {
    IndexValidationResults(false, message, [])
  }

  /** `IndexValidationResults.success`: valid, with no field records. */
  function Success(message: string): IndexValidationResults {
    IndexValidationResults(true, message, [])
  }

  /** What a public entry point does: return a result or throw. */
  datatype Outcome = Returned(results: IndexValidationResults) | Thrown(fault: Fault)

  const NullMappings := "Expected or actual mappings are null"
  const NoDynamicKey := "Actual mappings do not contain 'dynamic' key"
  const DynamicMismatch := "Dynamic mapping settings do not match"
  const FieldsMismatch := "Mappings do not match. Invalid fields found."
  const AllMatched := "All fields matched."

  /** What one step of the comparison appends to the list of invalid fields,
      and the exception it ends in, if any. */
  datatype Trace = Trace(added: seq<InvalidField>, thrown: Option<Fault>)

  const Clean := Trace([], None)

  function Fail(f: Fault): Trace {
    Trace([], Some(f))
  }

  /** Run `t`, then `u` unless `t` threw. */
  function Then(t: Trace, u: Trace): Trace {
    if t.thrown.Some? then t else Trace(t.added + u.added, u.thrown)
  }

  /** One element of the list `getFieldDocuments` returns; `None` is a null
      element (a list holding a single null). */
  type Definition = Option<Doc>

  function DefSize(e: Definition): nat {
    if e.Some? then DocSize(e.value) else 0
  }

  function MaxDefSize(exps: seq<Definition>): nat {
    if exps == [] then 0
    else if DefSize(exps[0]) < MaxDefSize(exps[1..]) then MaxDefSize(exps[1..])
    else DefSize(exps[0])
  }

  lemma {:induction false} MaxDefSizeBelow(exps: seq<Definition>, bound: nat)
    requires 0 < bound
    requires forall i :: 0 <= i < |exps| ==> DefSize(exps[i]) < bound
    ensures MaxDefSize(exps) < bound
  {
    if exps != [] {
      MaxDefSizeBelow(exps[1..], bound);
    }
  }

  lemma {:induction false} MaxDefSizeAtLeast(exps: seq<Definition>, i: nat)
    requires i < |exps|
    ensures DefSize(exps[i]) <= MaxDefSize(exps)
  {
    if i > 0 {
      MaxDefSizeAtLeast(exps[1..], i - 1);
    }
  }

  /** A value that the cast to Document rejects. */
  predicate NotDocument(n: Node) {
    !(n.Obj? || n.Null?)
  }

  function EntriesOf(items: seq<Node>): (ds: seq<Doc>)
    requires forall i :: 0 <= i < |items| ==> items[i].Obj?
    ensures |ds| == |items|
    ensures forall i :: 0 <= i < |items| ==> items[i] == Obj(ds[i])
  {
    seq(|items|, i requires 0 <= i < |items| => items[i].entries)
  }

  /** The entries of a non-empty list: those of its head, then of its tail. */
  lemma EntriesOfCons(items: seq<Node>)
    requires items != [] && forall i :: 0 <= i < |items| ==> items[i].Obj?
    ensures EntriesOf(items) == [items[0].entries] + EntriesOf(items[1..])
  {
    var es, rest := EntriesOf(items), EntriesOf(items[1..]);
    forall k | 0 <= k < |es| ensures es[k] == ([items[0].entries] + rest)[k] {
      if k > 0 {
        assert items[1..][k - 1] == items[k];
      }
    }
  }

  /** Counting `d` among entries and `Obj(d)` among documents agree on a
      list one longer, when they agree on the list and its new head is
      `Obj` of the new entry. */
  lemma ConsCount(e: Doc, es: seq<Doc>, n: Node, ns: seq<Node>, d: Doc)
    requires n == Obj(e) && multiset(es)[d] == multiset(ns)[Obj(d)]
    ensures multiset([e] + es)[d] == multiset([n] + ns)[Obj(d)]
  {
    assert multiset([e] + es) == multiset{e} + multiset(es);
    assert multiset([n] + ns) == multiset{n} + multiset(ns);
  }

  function AsDefinitions(ds: seq<Doc>): (exps: seq<Definition>)
    ensures |exps| == |ds|
    ensures forall i :: 0 <= i < |ds| ==> exps[i] == Some(ds[i])
  {
    seq(|ds|, i requires 0 <= i < |ds| => Some(ds[i]))
  }

  /** A definition as the list element it came from: a document, or null. */
  function AsNode(e: Definition): Node {
    if e.Some? then Obj(e.value) else Null
  }

  function AsNodes(exps: seq<Definition>): (items: seq<Node>)
    ensures |items| == |exps|
  {
    if exps == [] then [] else [AsNode(exps[0])] + AsNodes(exps[1..])
  }

  /** How often `Obj(d)` occurs in a list of documents: as often as `d` in the
      list of their entries. */
  lemma {:induction false} EntriesOfCount(items: seq<Node>, d: Doc)
    requires forall i :: 0 <= i < |items| ==> items[i].Obj?
    ensures multiset(EntriesOf(items))[d] == multiset(items)[Obj(d)]
  {
    if items != [] {
      EntriesOfCount(items[1..], d);
      EntriesOfCons(items);
      ConsCount(items[0].entries, EntriesOf(items[1..]), items[0], items[1..], d);
      assert items == [items[0]] + items[1..];
    }
  }

  /** Turning documents into definitions and back into list elements keeps
      how often each document occurs. */
  lemma {:induction false} AsNodesCount(ds: seq<Doc>, n: Node)
    ensures multiset(AsNodes(AsDefinitions(ds)))[n] == if n.Obj? then multiset(ds)[n.entries] else 0
  {
    if ds != [] {
      AsNodesCount(ds[1..], n);
      assert AsDefinitions(ds) == [Some(ds[0])] + AsDefinitions(ds[1..]);
      assert AsDefinitions(ds)[1..] == AsDefinitions(ds[1..]);
      assert ds == [ds[0]] + ds[1..];
    }
  }

  /** The sorted definitions of a list of documents are those documents, each
      as often as in the list. */
  lemma SortedItemsPermutation(items: seq<Node>, json: Doc -> string)
    requires forall i :: 0 <= i < |items| ==> items[i].Obj?
    ensures multiset(AsNodes(AsDefinitions(SortByJson(EntriesOf(items), json)))) == multiset(items)
  {
    var sorted := SortByJson(EntriesOf(items), json);
    forall n ensures multiset(AsNodes(AsDefinitions(sorted)))[n] == multiset(items)[n] {
      AsNodesCount(sorted, n);
      if n.Obj? {
        EntriesOfCount(items, n.entries);
      } else {
        assert n !in items;
      }
    }
  }

  /** A list with the entries of `items` holds only entries of documents in
      `items`. */
  lemma EntriesMembers(items: seq<Node>, ds: seq<Doc>)
    requires forall i :: 0 <= i < |items| ==> items[i].Obj?
    requires multiset(ds) == multiset(EntriesOf(items))
    ensures forall d :: d in ds ==> Obj(d) in items
  {
    forall d | d in ds ensures Obj(d) in items {
      assert d in multiset(ds);
      EntriesOfCount(items, d);
      assert Obj(d) in multiset(items);
    }
  }

  /** A document in a list is smaller than the list. */
  lemma ItemsSmaller(items: seq<Node>)
    ensures forall d :: Obj(d) in items ==> DocSize(d) < NodeSize(Arr(items))
  {
    forall d | Obj(d) in items ensures DocSize(d) < NodeSize(Arr(items)) {
      var i :| 0 <= i < |items| && items[i] == Obj(d);
      ItemSize(items, i);
    }
  }

  /** Every element of a sorted list of items is a document smaller than the
      list. */
  lemma SortedItemsSmaller(items: seq<Node>, json: Doc -> string)
    requires forall i :: 0 <= i < |items| ==> items[i].Obj?
    ensures forall d :: d in SortByJson(EntriesOf(items), json) ==>
              Obj(d) in items && DocSize(d) < NodeSize(Arr(items))
  {
    EntriesMembers(items, SortByJson(EntriesOf(items), json));
    ItemsSmaller(items);
  }

  /** The definitions made of a sorted list of documents: as many as the
      documents, each one of them and smaller than the list, in text order. */
  lemma SortedItemsDefinitions(items: seq<Node>, json: Doc -> string)
    requires forall i :: 0 <= i < |items| ==> items[i].Obj?
    ensures var exps := AsDefinitions(SortByJson(EntriesOf(items), json));
            |exps| == |items|
            && (forall i :: 0 <= i < |exps| ==>
                  exps[i].Some? && Obj(exps[i].value) in items && DocSize(exps[i].value) < NodeSize(Arr(items)))
            && forall i, j :: 0 <= i < j < |exps| ==> TextLeq(json(exps[i].value), json(exps[j].value))
  {
    SortedItemsSmaller(items, json);
    var sorted := SortByJson(EntriesOf(items), json);
    assert forall i :: 0 <= i < |sorted| ==> sorted[i] in sorted;
    assert |sorted| == |multiset(sorted)| == |multiset(EntriesOf(items))| == |items|;
  }

  /** `getFieldDocuments`: a field's definition, or its list of definitions,
      as a list. A single document becomes a one-element list; a list is
      sorted by the JSON text of its documents. A value that is neither a
      document nor a list of documents makes the Java code throw. */
  function GetFieldDocuments(value: Node, json: Doc -> string): (r: Result<seq<Definition>, Fault>)
    ensures value.Obj? ==> r == Ok([Some(value.entries)])
    ensures r.Ok? ==> |r.value| == (if value.Arr? then |value.items| else 1)
    ensures r.Ok? ==> forall i :: 0 <= i < |r.value| && r.value[i].Some? ==>
              DocSize(r.value[i].value) < NodeSize(value)
    ensures r.Ok? && value.Arr? ==> forall i :: 0 <= i < |r.value| ==>
              (if r.value[i].Some? then Obj(r.value[i].value) else Null) in value.items
    ensures r.Ok? ==> forall i, j :: 0 <= i < j < |r.value| && r.value[i].Some? && r.value[j].Some? ==>
              TextLeq(json(r.value[i].value), json(r.value[j].value))
  {
    match value
    case Arr(items) =>
      if exists i :: 0 <= i < |items| && NotDocument(items[i]) then Err(ClassCast)
      else if exists i :: 0 <= i < |items| && items[i].Null? then
        // a sort of two or more elements reads the JSON text of each one
        if |items| == 1 then Ok([None]) else Err(NullPointer)
      else
        SortedItemsDefinitions(items, json);
        Ok(AsDefinitions(SortByJson(EntriesOf(items), json)))
    case Obj(entries) => Ok([Some(entries)])
    case Null => Err(NullPointer)
    case _ => Err(ClassCast)
  }

  /** A list value gives back its own elements, each as often as it holds
      it; a list of documents is always accepted. */
  lemma GetFieldDocumentsKeepsElements(value: Node, json: Doc -> string)
    requires value.Arr?
    ensures (forall i :: 0 <= i < |value.items| ==> value.items[i].Obj?) ==> GetFieldDocuments(value, json).Ok?
    ensures GetFieldDocuments(value, json).Ok? ==>
              multiset(AsNodes(GetFieldDocuments(value, json).value)) == multiset(value.items)
  {
    var items := value.items;
    if forall i :: 0 <= i < |items| ==> items[i].Obj? {
      assert !exists i :: 0 <= i < |items| && (NotDocument(items[i]) || items[i].Null?);
      assert GetFieldDocuments(value, json) == Ok(AsDefinitions(SortByJson(EntriesOf(items), json)));
      SortedItemsPermutation(items, json);
    } else {
      var k :| 0 <= k < |items| && !items[k].Obj?;
      if GetFieldDocuments(value, json).Ok? {
        assert !NotDocument(items[k]) && items[k].Null?;
        assert GetFieldDocuments(value, json) == Ok([None]) && |items| == 1;
        assert items == [Null];
        assert AsNodes([None]) == [Null];
      }
    }
  }

  /** The values on which `getFieldDocuments` throws: anything but a document
      or a list of documents, except that a list holding one null is
      accepted. */
  lemma GetFieldDocumentsThrows(value: Node, json: Doc -> string)
    ensures GetFieldDocuments(value, json).Err?
        <==> !(value.Obj?
               || (value.Arr? && (forall i :: 0 <= i < |value.items| ==> !NotDocument(value.items[i]))
                   && (|value.items| == 1 || forall i :: 0 <= i < |value.items| ==> value.items[i].Obj?)))
  {
  }

  /** The attribute loop of `compareField`: the record for the first checked
      key that the expected definition has and the actual one lacks or holds
      with another value, if there is one. */
  function CheckAttributes(ed: Doc, a: Definition, keys: seq<string>, parent: string, name: string)
    : Result<Option<InvalidField>, Fault>
  {
    if keys == [] then Ok(None)
    else if !HasKey(ed, keys[0]) then CheckAttributes(ed, a, keys[1..], parent, name)
    else if a.None? then Err(NullPointer)
    else if !HasKey(a.value, keys[0]) then
      Ok(Some(InvalidField(parent, name, ExpectedFieldNotFound)))
    else
      var ev, av := Lookup(ed, keys[0]).value, Lookup(a.value, keys[0]).value;
      if ev.Null? then Err(NullPointer)  // expectedValue.equals(...) on null
      else if ev != av then Ok(Some(InvalidField(parent, name, FieldValueMismatch(ev, av))))
      else CheckAttributes(ed, a, keys[1..], parent, name)
  }

  /** What `compareFields(expectedFields, actualFields, parent, list)` appends:
      for each expected field in order, what `FieldWalk` appends, up to the
      first exception. */
  function FieldsWalk(exp: Doc, act: Option<Doc>, parent: string, json: Doc -> string): Trace
    decreases DocSize(exp), 4, 0
  {
    if exp == [] then Clean
    else
      EntrySize(exp, 0);
      Then(FieldWalk(exp[0].0, exp[0].1, act, parent, json), FieldsWalk(exp[1..], act, parent, json))
  }

  /** One iteration of the loop in `compareFields`, for the expected field
      `name` with value `ev`. */
  function FieldWalk(name: string, ev: Node, act: Option<Doc>, parent: string, json: Doc -> string): Trace
    decreases NodeSize(ev), 3, 0
  {
    if act.None? then Fail(NullPointer)  // actualFields.containsKey on null
    else
      match Lookup(act.value, name)
      case None => Trace([InvalidField(parent, name, FieldNotFound)], None)
      case Some(av) =>
        match GetFieldDocuments(ev, json)
        case Err(f) => Fail(f)
        case Ok(exps) =>
          match GetFieldDocuments(av, json)
          case Err(f) => Fail(f)
          case Ok(acts) =>
            if |exps| != |acts| then Trace([InvalidField(parent, name, FieldCountMismatch)], None)
            else
              MaxDefSizeBelow(exps, NodeSize(ev));
              PairsWalk(exps, acts, parent, name, json)
  }

  /** The inner loop of `compareFields`: the definitions compared pairwise in
      their sorted order. */
  function PairsWalk(exps: seq<Definition>, acts: seq<Definition>, parent: string, name: string,
                     json: Doc -> string): Trace
    requires |exps| == |acts|
    decreases MaxDefSize(exps), 2, |exps|
  {
    if exps == [] then Clean
    else Then(PairWalk(exps[0], acts[0], parent, name, json), PairsWalk(exps[1..], acts[1..], parent, name, json))
  }

  /** One pair: `compareField` and then `fieldIsInvalid.ifPresent(list::add)`. */
  function PairWalk(e: Definition, a: Definition, parent: string, name: string, json: Doc -> string): Trace
    decreases DefSize(e), 1, 1
  {
    var c := CompareFieldResult(e, a, parent, name, json);
    Then(c.nested, if c.returned.Some? then Trace([c.returned.value], None) else Clean)
  }

  /** What `compareField` does: the records its nested `compareFields`
      appends (and whether it throws), and the record it returns. */
  datatype FieldCheck = FieldCheck(nested: Trace, returned: Option<InvalidField>)

  function CompareFieldResult(e: Definition, a: Definition, parent: string, name: string,
                              json: Doc -> string): FieldCheck
    decreases DefSize(e), 1, 0
  {
    match e
    case None => FieldCheck(Fail(NullPointer), None)  // expectedField.containsKey on null
    case Some(ed) =>
      match CheckAttributes(ed, a, CheckedKeys, parent, name)
      case Err(f) => FieldCheck(Fail(f), None)
      case Ok(Some(record)) => FieldCheck(Clean, Some(record))
      case Ok(None) =>
        if !HasKey(ed, "fields") then FieldCheck(Clean, None)
        else if a.None? then FieldCheck(Fail(NullPointer), None)  // actualField.containsKey on null
        else FieldCheck(NestedWalk(ed, a.value, parent + "." + name, json), None)
  }

  /** When both documents have a `fields` key: cast both values to documents
      and compare them with `compareFields` under `parent`. Shared by the
      mapping walker and `compareField`. */
  function NestedWalk(ed: Doc, ad: Doc, parent: string, json: Doc -> string): Trace
    decreases DocSize(ed), 0, 0
  {
    if !(HasKey(ed, "fields") && HasKey(ad, "fields")) then Clean
    else
      match GetDocument(ed, "fields")
      case Err(f) => Fail(f)
      case Ok(ef) =>
        match GetDocument(ad, "fields")
        case Err(f) => Fail(f)
        case Ok(af) =>
          if ef.None? then Fail(NullPointer)  // expectedFields.keySet() on null
          else
            LookupSize(ed, "fields");
            FieldsWalk(ef.value, af, parent, json)
  }

  /** `compareAtlasSearchIndexMapping`: the structural checks, then the walk
      over the expected fields; `invalidFieldsSoFar` is the caller's list. */
  function CompareAtlasSearchIndexMapping(expectedMapping: Option<Doc>, actualMapping: Option<Doc>,
                                          invalidFieldsSoFar: seq<InvalidField>, json: Doc -> string)
    : Outcome
  {
    if expectedMapping.None? || actualMapping.None? then Returned(Error(NullMappings))
    else if !HasKey(actualMapping.value, "dynamic") then Returned(Error(NoDynamicKey))
    else
      match GetBoolean(expectedMapping.value, "dynamic")
      case Err(f) => Thrown(f)
      case Ok(expectedDynamic) =>
        match GetBoolean(actualMapping.value, "dynamic")
        case Err(f) => Thrown(f)
        case Ok(actualDynamic) =>
          if expectedDynamic != actualDynamic then Returned(Error(DynamicMismatch))
          else
            var walk := NestedWalk(expectedMapping.value, actualMapping.value, "", json);
            if walk.thrown.Some? then Thrown(walk.thrown.value)
            else if invalidFieldsSoFar + walk.added != [] then
              Returned(IndexValidationResults(false, FieldsMismatch, invalidFieldsSoFar + walk.added))
            else Returned(Success(AllMatched))
  }

  /** One entry of the server's search-index listing. */
  datatype SearchIndex = SearchIndex(name: string, status: string, latestDefinition: Doc)

  /** The stream's `filter(name equals).findFirst()`. */
  function FindIndex(indexes: seq<SearchIndex>, indexName: string): (r: Option<SearchIndex>)
    ensures r.None? <==> forall i :: 0 <= i < |indexes| ==> indexes[i].name != indexName
    ensures r.Some? ==> exists i :: 0 <= i < |indexes| && indexes[i] == r.value && r.value.name == indexName
                          && forall j :: 0 <= j < i ==> indexes[j].name != indexName
  {
    if indexes == [] then None
    else if indexes[0].name == indexName then Some(indexes[0])
    else
      var r := FindIndex(indexes[1..], indexName);
      assert r.Some? ==> exists i :: 0 <= i < |indexes[1..]| && indexes[1..][i] == r.value
                            && forall j :: 0 <= j < i ==> indexes[1..][j].name != indexName;
      r
  }

  /** `validateIndexes`, given the parsed expected index document and the
      listing of the collection's search indexes. */
  function ValidateIndexes(expectedIndex: Doc, indexes: seq<SearchIndex>, indexName: string,
                           json: Doc -> string): Outcome
  {
    match FindIndex(indexes, indexName)
    case None => Returned(Error("Index not found: " + indexName))
    case Some(index) =>
      if index.status != "READY" then Returned(Error("Index is not ready: " + indexName))
      else
        match GetDocument(expectedIndex, "mappings")
        case Err(f) => Thrown(f)
        case Ok(expectedMapping) =>
          match GetDocument(index.latestDefinition, "mappings")
          case Err(f) => Thrown(f)
          case Ok(actualMapping) =>
            CompareAtlasSearchIndexMapping(expectedMapping, actualMapping, [], json)
  }

  /** The path `printResults` shows for a record: `parent.name`, or the bare
      name when the parent is empty. */
  function FieldPath(f: InvalidField): (path: string)
    ensures |path| == (if f.fieldParent == "" then 0 else |f.fieldParent| + 1) + |f.fieldName|
    ensures path[|path| - |f.fieldName|..] == f.fieldName
    ensures f.fieldParent != "" ==> path[..|f.fieldParent| + 1] == f.fieldParent + "."
  {
    (if f.fieldParent == "" then "" else f.fieldParent + ".") + f.fieldName
  }
}
