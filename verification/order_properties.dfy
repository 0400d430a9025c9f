/** What the walk does not look at. The actual side is only consulted
    through the expected field names (a subset check: extra actual fields
    are ignored), and a field's value only through the list
    `getFieldDocuments` makes of it: a single definition counts as a
    one-element list, and when its definitions have distinct JSON texts the
    order of a field's own list of definitions does not matter. */
module OrderProperties {
  import opened Wrappers
  import opened Bson
  import opened JsonOrder
  import opened IndexValidator

  /** Two looked-up values that `getFieldDocuments` cannot tell apart. */
  predicate SameDefinitions(x: Option<Node>, y: Option<Node>, json: Doc -> string) {
    (x.None? && y.None?)
    || (x.Some? && y.Some? && GetFieldDocuments(x.value, json) == GetFieldDocuments(y.value, json))
  }

  /** The walk over the expected fields sees the expected values and the
      actual values under the expected names only as definition lists. */
  lemma {:induction false} FieldsWalkCongruence(exp1: Doc, exp2: Doc, act1: Option<Doc>, act2: Option<Doc>,
                                                parent: string, json: Doc -> string)
    requires |exp1| == |exp2|
    requires forall i :: 0 <= i < |exp1| ==>
               exp1[i].0 == exp2[i].0 && GetFieldDocuments(exp1[i].1, json) == GetFieldDocuments(exp2[i].1, json)
    requires act1.None? <==> act2.None?
    requires act1.Some? ==> forall i :: 0 <= i < |exp1| ==>
               SameDefinitions(Lookup(act1.value, exp1[i].0), Lookup(act2.value, exp1[i].0), json)
    ensures FieldsWalk(exp1, act1, parent, json) == FieldsWalk(exp2, act2, parent, json)
  {
    if exp1 != [] {
      assert forall i :: 0 < i < |exp1| ==> exp1[i] == exp1[1..][i - 1] && exp2[i] == exp2[1..][i - 1];
      FieldsWalkCongruence(exp1[1..], exp2[1..], act1, act2, parent, json);
      assert FieldWalk(exp1[0].0, exp1[0].1, act1, parent, json) == FieldWalk(exp2[0].0, exp2[0].1, act2, parent, json);
    }
  }

  lemma {:induction false} LookupAppend(a: Doc, b: Doc, key: string)
    ensures Lookup(a + b, key) == if HasKey(a, key) then Lookup(a, key) else Lookup(b, key)
  {
    if a != [] {
      assert (a + b)[1..] == a[1..] + b;
      LookupAppend(a[1..], b, key);
    } else {
      assert a + b == b;
    }
  }

  /** Fields that only the actual mapping has are never reported, and do not
      change anything else that is reported. */
  lemma ExtraActualFieldsIgnored(exp: Doc, act: Doc, extra: Doc, parent: string, json: Doc -> string)
    requires forall i, j :: 0 <= i < |exp| && 0 <= j < |extra| ==> extra[j].0 != exp[i].0
    ensures FieldsWalk(exp, Some(act + extra), parent, json) == FieldsWalk(exp, Some(act), parent, json)
  {
    forall i | 0 <= i < |exp|
      ensures SameDefinitions(Lookup(act + extra, exp[i].0), Lookup(act, exp[i].0), json)
    {
      LookupAppend(act, extra, exp[i].0);
    }
    FieldsWalkCongruence(exp, exp, Some(act + extra), Some(act), parent, json);
  }

  /** Replacing the value of an entry changes the lookups of its own key at
      most. */
  lemma {:induction false} LookupReplace(d: Doc, i: nat, w: Node, key: string)
    requires i < |d|
    ensures var d2 := d[i := (d[i].0, w)];
            Lookup(d2, key) == Lookup(d, key)
            || (Lookup(d, key) == Some(d[i].1) && Lookup(d2, key) == Some(w))
  {
    var d2 := d[i := (d[i].0, w)];
    if i > 0 && d[0].0 != key {
      assert d2[1..] == d[1..][i - 1 := (d[i].0, w)];
      LookupReplace(d[1..], i - 1, w, key);
    }
  }

  /** An expected field's value matters only through its definition list. */
  lemma ReplaceExpectedValue(exp: Doc, i: nat, w: Node, act: Option<Doc>, parent: string, json: Doc -> string)
    requires i < |exp|
    requires GetFieldDocuments(w, json) == GetFieldDocuments(exp[i].1, json)
    ensures FieldsWalk(exp[i := (exp[i].0, w)], act, parent, json) == FieldsWalk(exp, act, parent, json)
  {
    var exp2 := exp[i := (exp[i].0, w)];
    if act.Some? {
      forall j | 0 <= j < |exp2|
        ensures SameDefinitions(Lookup(act.value, exp2[j].0), Lookup(act.value, exp2[j].0), json)
      {
      }
    }
    FieldsWalkCongruence(exp2, exp, act, act, parent, json);
  }

  /** An actual field's value matters only through its definition list. */
  lemma ReplaceActualValue(exp: Doc, act: Doc, i: nat, w: Node, parent: string, json: Doc -> string)
    requires i < |act|
    requires GetFieldDocuments(w, json) == GetFieldDocuments(act[i].1, json)
    ensures FieldsWalk(exp, Some(act[i := (act[i].0, w)]), parent, json) == FieldsWalk(exp, Some(act), parent, json)
  {
    var act2 := act[i := (act[i].0, w)];
    forall j | 0 <= j < |exp|
      ensures SameDefinitions(Lookup(act2, exp[j].0), Lookup(act, exp[j].0), json)
    {
      LookupReplace(act, i, w, exp[j].0);
    }
    FieldsWalkCongruence(exp, exp, Some(act2), Some(act), parent, json);
  }

  /** A single definition is the one-element list holding it. */
  lemma SingleIsOneElementList(d: Doc, json: Doc -> string)
    ensures GetFieldDocuments(Obj(d), json) == GetFieldDocuments(Arr([Obj(d)]), json)
  {
    var items := [Obj(d)];
    assert !exists i :: 0 <= i < |items| && NotDocument(items[i]);
    assert !exists i :: 0 <= i < |items| && items[i].Null?;
    assert EntriesOf(items) == [d];
    assert SortByJson([d], json) == Insert(d, SortByJson([], json), json) == [d];
    assert AsDefinitions([d]) == [Some(d)];
  }

  /** The documents of a list value have pairwise distinct JSON texts. */
  ghost predicate DistinctTexts(items: seq<Node>, json: Doc -> string) {
    forall x, y :: x in items && y in items && x.Obj? && y.Obj? && json(x.entries) == json(y.entries) ==> x == y
  }

  lemma DistinctEntries(p: seq<Node>, json: Doc -> string)
    requires forall i :: 0 <= i < |p| ==> p[i].Obj?
    requires DistinctTexts(p, json)
    ensures InjectiveOn(EntriesOf(p), json)
  {
    forall d | d in EntriesOf(p) ensures Obj(d) in p {
      assert d in multiset(EntriesOf(p));
      EntriesOfCount(p, d);
      assert Obj(d) in multiset(p);
    }
  }

  /** Two lists holding the same documents sort to the same list when their
      documents have distinct texts. */
  lemma EntriesIgnoreOrder(p: seq<Node>, q: seq<Node>, json: Doc -> string)
    requires forall i :: 0 <= i < |p| ==> p[i].Obj?
    requires forall i :: 0 <= i < |q| ==> q[i].Obj?
    requires DistinctTexts(p, json) && multiset(p) == multiset(q)
    ensures SortByJson(EntriesOf(p), json) == SortByJson(EntriesOf(q), json)
  {
    forall d ensures multiset(EntriesOf(p))[d] == multiset(EntriesOf(q))[d] {
      EntriesOfCount(p, d);
      EntriesOfCount(q, d);
    }
    assert multiset(EntriesOf(p)) == multiset(EntriesOf(q));
    DistinctEntries(p, json);
    SortIgnoresOrder(EntriesOf(p), EntriesOf(q), json);
  }

  /** An element of a list is found in any list with the same elements. */
  lemma Present(p: seq<Node>, q: seq<Node>, i: nat)
    requires multiset(p) == multiset(q) && i < |p|
    ensures exists j :: 0 <= j < |q| && q[j] == p[i]
  {
    assert p[i] in multiset(q);
  }

  /** Two lists with the same elements have the same length, and one holds
      a non-document, or a null, exactly when the other does. */
  lemma SameKinds(p: seq<Node>, q: seq<Node>)
    requires multiset(p) == multiset(q)
    ensures |p| == |q|
    ensures (exists i :: 0 <= i < |p| && NotDocument(p[i])) <==> (exists i :: 0 <= i < |q| && NotDocument(q[i]))
    ensures (exists i :: 0 <= i < |p| && p[i].Null?) <==> (exists i :: 0 <= i < |q| && q[i].Null?)
  {
    assert |multiset(p)| == |multiset(q)|;
    if i :| 0 <= i < |p| && NotDocument(p[i]) {
      Present(p, q, i);
    }
    if j :| 0 <= j < |q| && NotDocument(q[j]) {
      Present(q, p, j);
    }
    if i :| 0 <= i < |p| && p[i].Null? {
      Present(p, q, i);
    }
    if j :| 0 <= j < |q| && q[j].Null? {
      Present(q, p, j);
    }
  }

  /** The definition list of a field does not depend on the order in which
      the list value holds its definitions. */
  lemma GetFieldDocumentsIgnoresOrder(p: seq<Node>, q: seq<Node>, json: Doc -> string)
    requires DistinctTexts(p, json)
    requires multiset(p) == multiset(q)
    ensures GetFieldDocuments(Arr(p), json) == GetFieldDocuments(Arr(q), json)
  {
    SameKinds(p, q);
    if !(exists i :: 0 <= i < |p| && (NotDocument(p[i]) || p[i].Null?)) {
      assert forall i :: 0 <= i < |q| ==> q[i].Obj?;
      EntriesIgnoreOrder(p, q, json);
    }
  }

  /** Reordering the definitions of an expected field changes nothing. */
  lemma ExpectedListOrderIgnored(exp: Doc, i: nat, q: seq<Node>, act: Option<Doc>, parent: string,
                                 json: Doc -> string)
    requires i < |exp| && exp[i].1.Arr? && DistinctTexts(exp[i].1.items, json)
    requires multiset(q) == multiset(exp[i].1.items)
    ensures FieldsWalk(exp[i := (exp[i].0, Arr(q))], act, parent, json) == FieldsWalk(exp, act, parent, json)
  {
    GetFieldDocumentsIgnoresOrder(exp[i].1.items, q, json);
    ReplaceExpectedValue(exp, i, Arr(q), act, parent, json);
  }

  /** Reordering the definitions of an actual field changes nothing. */
  lemma ActualListOrderIgnored(exp: Doc, act: Doc, i: nat, q: seq<Node>, parent: string, json: Doc -> string)
    requires i < |act| && act[i].1.Arr? && DistinctTexts(act[i].1.items, json)
    requires multiset(q) == multiset(act[i].1.items)
    ensures FieldsWalk(exp, Some(act[i := (act[i].0, Arr(q))]), parent, json) == FieldsWalk(exp, Some(act), parent, json)
  {
    GetFieldDocumentsIgnoresOrder(act[i].1.items, q, json);
    ReplaceActualValue(exp, act, i, Arr(q), parent, json);
  }

  /** An expected single definition and the one-element list holding it are
      compared alike. */
  lemma SingleExpectedDefinitionAsList(exp: Doc, i: nat, act: Option<Doc>, parent: string, json: Doc -> string)
    requires i < |exp| && exp[i].1.Obj?
    ensures FieldsWalk(exp[i := (exp[i].0, Arr([exp[i].1]))], act, parent, json)
         == FieldsWalk(exp, act, parent, json)
  {
    SingleIsOneElementList(exp[i].1.entries, json);
    ReplaceExpectedValue(exp, i, Arr([exp[i].1]), act, parent, json);
  }

  /** An actual single definition and the one-element list holding it are
      compared alike. */
  lemma SingleActualDefinitionAsList(exp: Doc, act: Doc, j: nat, parent: string, json: Doc -> string)
    requires j < |act| && act[j].1.Obj?
    ensures FieldsWalk(exp, Some(act[j := (act[j].0, Arr([act[j].1]))]), parent, json)
         == FieldsWalk(exp, Some(act), parent, json)
  {
    SingleIsOneElementList(act[j].1.entries, json);
    ReplaceActualValue(exp, act, j, Arr([act[j].1]), parent, json);
  }
}
