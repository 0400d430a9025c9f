/** `compareFields` and `compareField` as the Java code runs them: loops over
    the expected field names, their definitions and the checked attributes,
    appending each mismatch to the caller's list as soon as it is found. The
    ArrayList passed by reference is threaded through: it comes in as
    `invalidFieldsSoFar` and goes out as `list`. An exception ends the walk
    with the records appended so far in `list`. Each method is proved to do
    exactly what the function of the same part of `IndexValidator` says, so
    the list only ever grows at its end. */
module FieldComparator {
  import opened Wrappers
  import opened Bson
  import opened IndexValidator

  lemma ThenAssociative(t: Trace, u: Trace, v: Trace)
    ensures Then(Then(t, u), v) == Then(t, Then(u, v))
  {
    if t.thrown.None? && u.thrown.None? {
      assert t.added + u.added + v.added == t.added + (u.added + v.added);
    }
  }

  /** Records `done` already appended, then `t`. */
  lemma ThenDone(done: seq<InvalidField>, t: Trace, rest: Trace)
    ensures Then(Trace(done, None), Then(t, rest))
         == if t.thrown.Some? then Trace(done + t.added, t.thrown)
            else Then(Trace(done + t.added, None), rest)
  {
    ThenAssociative(Trace(done, None), t, rest);
  }

  /** Records `done` already appended to `base`, then `step` appended: either
      `step` threw, and that ends `Then(step, rest)`, or `rest` is still to
      run. */
  lemma StepDone(step: Trace, rest: Trace, base: seq<InvalidField>, done: seq<InvalidField>,
                 list: seq<InvalidField>, thrown: Option<Fault>)
    requires list == base + done + step.added && thrown == step.thrown
    ensures var whole := Then(Trace(done, None), Then(step, rest));
            if thrown.Some? then list == base + whole.added && thrown == whole.thrown
            else list == base + (done + step.added) && Then(Trace(done + step.added, None), rest) == whole
  {
    ThenDone(done, step, rest);
    assert base + done + step.added == base + (done + step.added);
  }

  /** The walk over the fields from `i` on is field `i`, then the rest. */
  lemma FieldsFrom(exp: Doc, i: nat, act: Option<Doc>, parent: string, json: Doc -> string)
    requires i < |exp|
    ensures FieldsWalk(exp[i..], act, parent, json)
         == Then(FieldWalk(exp[i].0, exp[i].1, act, parent, json), FieldsWalk(exp[i + 1..], act, parent, json))
  {
    assert exp[i..][0] == exp[i] && exp[i..][1..] == exp[i + 1..];
  }

  /** One turn of the loop in `compareFields`: field `i` appends its records
      to the list, and then either the loop ends with its exception, which is
      where the whole walk ends, or the remaining fields are left to run. */
  lemma FieldsStep(exp: Doc, i: nat, act: Option<Doc>, parent: string, json: Doc -> string,
                   base: seq<InvalidField>, done: seq<InvalidField>, list: seq<InvalidField>, thrown: Option<Fault>)
    requires i < |exp|
    requires list == base + done + FieldWalk(exp[i].0, exp[i].1, act, parent, json).added
    requires thrown == FieldWalk(exp[i].0, exp[i].1, act, parent, json).thrown
    ensures var whole := Then(Trace(done, None), FieldsWalk(exp[i..], act, parent, json));
            var done' := done + FieldWalk(exp[i].0, exp[i].1, act, parent, json).added;
            if thrown.Some? then list == base + whole.added && thrown == whole.thrown
            else list == base + done' && Then(Trace(done', None), FieldsWalk(exp[i + 1..], act, parent, json)) == whole
  {
    FieldsFrom(exp, i, act, parent, json);
    StepDone(FieldWalk(exp[i].0, exp[i].1, act, parent, json), FieldsWalk(exp[i + 1..], act, parent, json),
             base, done, list, thrown);
  }

  method CompareFields(expectedFields: Doc, actualFields: Option<Doc>, fieldParent: string,
                       invalidFieldsSoFar: seq<InvalidField>, json: Doc -> string)
    returns (list: seq<InvalidField>, thrown: Option<Fault>)
    ensures list == invalidFieldsSoFar + FieldsWalk(expectedFields, actualFields, fieldParent, json).added
    ensures thrown == FieldsWalk(expectedFields, actualFields, fieldParent, json).thrown
    decreases DocSize(expectedFields), 4, 0
  {
    list, thrown := invalidFieldsSoFar, None;
    ghost var whole := FieldsWalk(expectedFields, actualFields, fieldParent, json);
    ghost var done: seq<InvalidField> := [];
    var i := 0;
    while i < |expectedFields|
      invariant 0 <= i <= |expectedFields|
      invariant list == invalidFieldsSoFar + done && thrown.None?
      invariant Then(Trace(done, None), FieldsWalk(expectedFields[i..], actualFields, fieldParent, json)) == whole
    {
      var fieldName, expectedValue := expectedFields[i].0, expectedFields[i].1;
      EntrySize(expectedFields, i);
      list, thrown := CompareNamedField(fieldName, expectedValue, actualFields, fieldParent, list, json);
      FieldsStep(expectedFields, i, actualFields, fieldParent, json, invalidFieldsSoFar, done, list, thrown);
      done := done + FieldWalk(fieldName, expectedValue, actualFields, fieldParent, json).added;
      if thrown.Some? {
        return;
      }
      i := i + 1;
    }
  }

  /** The body of the loop in `compareFields`, for the expected field
      `fieldName` whose value is `expectedValue`. */
  method CompareNamedField(fieldName: string, expectedValue: Node, actualFields: Option<Doc>, fieldParent: string,
                           invalidFieldsSoFar: seq<InvalidField>, json: Doc -> string)
    returns (list: seq<InvalidField>, thrown: Option<Fault>)
    ensures list == invalidFieldsSoFar + FieldWalk(fieldName, expectedValue, actualFields, fieldParent, json).added
    ensures thrown == FieldWalk(fieldName, expectedValue, actualFields, fieldParent, json).thrown
    decreases NodeSize(expectedValue), 3, 0
  {
    list, thrown := invalidFieldsSoFar, None;
    if actualFields.None? {
      thrown := Some(NullPointer);
      return;
    }
    var actual := actualFields.value;
    if !HasKey(actual, fieldName) {
      list := list + [InvalidField(fieldParent, fieldName, FieldNotFound)];
      return;
    }
    var expectedToCheck := GetFieldDocuments(expectedValue, json);
    if expectedToCheck.Err? {
      thrown := Some(expectedToCheck.error);
      return;
    }
    var actualToCheck := GetFieldDocuments(Lookup(actual, fieldName).value, json);
    if actualToCheck.Err? {
      thrown := Some(actualToCheck.error);
      return;
    }
    var exps, acts := expectedToCheck.value, actualToCheck.value;
    if |exps| != |acts| {
      list := list + [InvalidField(fieldParent, fieldName, FieldCountMismatch)];
      return;
    }
    MaxDefSizeBelow(exps, NodeSize(expectedValue));
    list, thrown := ComparePairs(exps, acts, fieldParent, fieldName, list, json);
  }

  /** One turn of the inner loop: pair `i` appends its nested records, and
      then either the loop ends with its exception, which is where the whole
      loop ends, or the pair's returned record, if any, is added and the
      remaining pairs are left to run. */
  lemma PairsStep(exps: seq<Definition>, acts: seq<Definition>, i: nat, parent: string, name: string,
                  json: Doc -> string, base: seq<InvalidField>, done: seq<InvalidField>,
                  list: seq<InvalidField>, returned: Option<InvalidField>, thrown: Option<Fault>)
    requires |exps| == |acts| && i < |exps|
    requires list == base + done + CompareFieldResult(exps[i], acts[i], parent, name, json).nested.added
    requires thrown == CompareFieldResult(exps[i], acts[i], parent, name, json).nested.thrown
    requires returned == CompareFieldResult(exps[i], acts[i], parent, name, json).returned
    ensures var whole := Then(Trace(done, None), PairsWalk(exps[i..], acts[i..], parent, name, json));
            var done' := done + CompareFieldResult(exps[i], acts[i], parent, name, json).nested.added
                         + (if returned.Some? then [returned.value] else []);
            if thrown.Some? then list == base + whole.added && thrown == whole.thrown
            else (if returned.Some? then list + [returned.value] else list) == base + done'
                 && Then(Trace(done', None), PairsWalk(exps[i + 1..], acts[i + 1..], parent, name, json)) == whole
  {
    var c := CompareFieldResult(exps[i], acts[i], parent, name, json);
    var report := if c.returned.Some? then Trace([c.returned.value], None) else Clean;
    var rest := PairsWalk(exps[i + 1..], acts[i + 1..], parent, name, json);
    assert exps[i..][0] == exps[i] && exps[i..][1..] == exps[i + 1..];
    assert acts[i..][0] == acts[i] && acts[i..][1..] == acts[i + 1..];
    assert PairsWalk(exps[i..], acts[i..], parent, name, json) == Then(Then(c.nested, report), rest);
    ThenAssociative(c.nested, report, rest);
    ThenDone(done, c.nested, Then(report, rest));
    assert base + done + c.nested.added == base + (done + c.nested.added);
    if c.nested.thrown.None? && c.returned.Some? {
      ThenDone(done + c.nested.added, report, rest);
      assert base + (done + c.nested.added) + [c.returned.value] == base + (done + c.nested.added + [c.returned.value]);
    }
  }

  /** The inner loop of `compareFields`: each pair of definitions in turn,
      adding the record `compareField` returns, if any. */
  method ComparePairs(exps: seq<Definition>, acts: seq<Definition>, fieldParent: string, fieldName: string,
                      invalidFieldsSoFar: seq<InvalidField>, json: Doc -> string)
    returns (list: seq<InvalidField>, thrown: Option<Fault>)
    requires |exps| == |acts|
    ensures list == invalidFieldsSoFar + PairsWalk(exps, acts, fieldParent, fieldName, json).added
    ensures thrown == PairsWalk(exps, acts, fieldParent, fieldName, json).thrown
    decreases MaxDefSize(exps), 2, 0
  {
    list, thrown := invalidFieldsSoFar, None;
    ghost var whole := PairsWalk(exps, acts, fieldParent, fieldName, json);
    ghost var done: seq<InvalidField> := [];
    var i := 0;
    while i < |exps|
      invariant 0 <= i <= |exps|
      invariant list == invalidFieldsSoFar + done && thrown.None?
      invariant Then(Trace(done, None), PairsWalk(exps[i..], acts[i..], fieldParent, fieldName, json)) == whole
    {
      MaxDefSizeAtLeast(exps, i);
      var returned;
      list, returned, thrown := CompareField(exps[i], acts[i], fieldParent, fieldName, list, json);
      PairsStep(exps, acts, i, fieldParent, fieldName, json, invalidFieldsSoFar, done, list, returned, thrown);
      done := done + CompareFieldResult(exps[i], acts[i], fieldParent, fieldName, json).nested.added
              + (if returned.Some? then [returned.value] else []);
      if thrown.Some? {
        return;
      }
      if returned.Some? {
        list := list + [returned.value];
      }
      i := i + 1;
    }
  }

  method CompareField(expectedField: Definition, actualField: Definition, fieldParent: string,
                      fieldName: string, invalidFieldsSoFar: seq<InvalidField>, json: Doc -> string)
    returns (list: seq<InvalidField>, returned: Option<InvalidField>, thrown: Option<Fault>)
    ensures list == invalidFieldsSoFar
                    + CompareFieldResult(expectedField, actualField, fieldParent, fieldName, json).nested.added
    ensures thrown == CompareFieldResult(expectedField, actualField, fieldParent, fieldName, json).nested.thrown
    ensures returned == CompareFieldResult(expectedField, actualField, fieldParent, fieldName, json).returned
    decreases DefSize(expectedField), 1, 0
  {
    list, returned, thrown := invalidFieldsSoFar, None, None;
    if expectedField.None? {
      thrown := Some(NullPointer);
      return;
    }
    var expected := expectedField.value;
    for k := 0 to |CheckedKeys|
      invariant CheckAttributes(expected, actualField, CheckedKeys[k..], fieldParent, fieldName)
             == CheckAttributes(expected, actualField, CheckedKeys, fieldParent, fieldName)
    {
      var key := CheckedKeys[k];
      assert CheckedKeys[k..][0] == key && CheckedKeys[k..][1..] == CheckedKeys[k + 1..];
      if HasKey(expected, key) {
        if actualField.None? {
          thrown := Some(NullPointer);
          return;
        }
        if !HasKey(actualField.value, key) {
          returned := Some(InvalidField(fieldParent, fieldName, ExpectedFieldNotFound));
          return;
        }
        var expectedValue := Lookup(expected, key).value;
        var actualValue := Lookup(actualField.value, key).value;
        if expectedValue.Null? {
          thrown := Some(NullPointer);
          return;
        }
        if expectedValue != actualValue {
          returned := Some(InvalidField(fieldParent, fieldName, FieldValueMismatch(expectedValue, actualValue)));
          return;
        }
      }
    }
    if HasKey(expected, "fields") {
      if actualField.None? {
        thrown := Some(NullPointer);
        return;
      }
      var actual := actualField.value;
      if HasKey(actual, "fields") {
        var expectedFields := GetDocument(expected, "fields");
        if expectedFields.Err? {
          thrown := Some(expectedFields.error);
          return;
        }
        var actualFields := GetDocument(actual, "fields");
        if actualFields.Err? {
          thrown := Some(actualFields.error);
          return;
        }
        if expectedFields.value.None? {
          thrown := Some(NullPointer);
          return;
        }
        LookupSize(expected, "fields");
        list, thrown := CompareFields(expectedFields.value.value, actualFields.value,
                                      fieldParent + "." + fieldName, list, json);
      }
    }
  }
}
