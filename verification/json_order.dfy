/** The canonical order of definition documents: `getFieldDocuments` sorts a
    list of definitions with `Comparator.comparing(Document::toJson)`, a
    stable sort on the JSON text under `String.compareTo`. The serialiser
    itself belongs to the BSON library; the model takes it as a parameter
    `json`, and where order-independence is claimed it needs only that the
    documents being sorted have distinct texts. */
module JsonOrder {
  import opened Bson

  /** `a.compareTo(b) <= 0`: character by character, a proper prefix first. */
  predicate TextLeq(a: string, b: string) {
    if a == [] then true
    else if b == [] then false
    else if a[0] != b[0] then a[0] < b[0]
    else TextLeq(a[1..], b[1..])
  }

  lemma {:induction false} TextLeqReflexive(a: string)
    ensures TextLeq(a, a)
  {
    if a != [] {
      TextLeqReflexive(a[1..]);
    }
  }

  lemma {:induction false} TextLeqTotal(a: string, b: string)
    ensures TextLeq(a, b) || TextLeq(b, a)
  {
    if a != [] && b != [] && a[0] == b[0] {
      TextLeqTotal(a[1..], b[1..]);
    }
  }

  lemma {:induction false} TextLeqAntisymmetric(a: string, b: string)
    requires TextLeq(a, b) && TextLeq(b, a)
    ensures a == b
  {
    if a != [] && b != [] {
      TextLeqAntisymmetric(a[1..], b[1..]);
      assert a == [a[0]] + a[1..] && b == [b[0]] + b[1..];
    }
  }

  lemma {:induction false} TextLeqTransitive(a: string, b: string, c: string)
    requires TextLeq(a, b) && TextLeq(b, c)
    ensures TextLeq(a, c)
  {
    if a != [] && b != [] && c != [] && a[0] == b[0] == c[0] {
      TextLeqTransitive(a[1..], b[1..], c[1..]);
    }
  }

  /** Distinct documents of `ds` have distinct JSON texts. */
  ghost predicate InjectiveOn(ds: seq<Doc>, json: Doc -> string) {
    forall d1, d2 :: d1 in ds && d2 in ds && json(d1) == json(d2) ==> d1 == d2
  }

  /** Lists with the same elements: the serialiser is injective on both or
      on neither. */
  lemma InjectiveOnSameElements(p: seq<Doc>, q: seq<Doc>, json: Doc -> string)
    requires multiset(p) == multiset(q) && InjectiveOn(p, json)
    ensures InjectiveOn(q, json)
  {
    forall d | d in q ensures d in p {
      assert d in multiset(q);
    }
  }

  ghost predicate SortedBy(ds: seq<Doc>, json: Doc -> string) {
    forall i, j :: 0 <= i < j < |ds| ==> TextLeq(json(ds[i]), json(ds[j]))
  }

  /** Puts `d` before the first element whose text is not smaller, so that an
      element inserted later (one that came earlier in the input) precedes the
      elements with the same text: the sort is stable. */
  function Insert(d: Doc, ds: seq<Doc>, json: Doc -> string): (r: seq<Doc>)
    ensures multiset(r) == multiset(ds) + multiset{d}
  {
    if ds == [] || TextLeq(json(d), json(ds[0])) then [d] + ds
    else
      assert ds == [ds[0]] + ds[1..];
      [ds[0]] + Insert(d, ds[1..], json)
  }

  lemma SortedTail(r: seq<Doc>, json: Doc -> string)
    requires SortedBy(r, json) && r != []
    ensures SortedBy(r[1..], json)
  {
    forall i, j | 0 <= i < j < |r| - 1 ensures TextLeq(json(r[1..][i]), json(r[1..][j])) {
      assert r[1..][i] == r[i + 1] && r[1..][j] == r[j + 1];
    }
  }

  /** A sorted list stays sorted under a new head whose text is at most
      every text in it. */
  lemma ConsSorted(h: Doc, ds: seq<Doc>, json: Doc -> string)
    requires SortedBy(ds, json)
    requires forall x :: x in ds ==> TextLeq(json(h), json(x))
    ensures SortedBy([h] + ds, json)
  {
    forall i, j | 0 <= i < j < |[h] + ds| ensures TextLeq(json(([h] + ds)[i]), json(([h] + ds)[j])) {
      assert ([h] + ds)[j] == ds[j - 1];
      if i > 0 {
        assert ([h] + ds)[i] == ds[i - 1];
      } else {
        assert ds[j - 1] in ds;
      }
    }
  }

  /** The head of a sorted list is at most every other element, and at most
      `d` when `d` comes after it. */
  lemma HeadIsLeast(d: Doc, ds: seq<Doc>, rest: seq<Doc>, json: Doc -> string)
    requires SortedBy(ds, json) && ds != []
    requires TextLeq(json(ds[0]), json(d))
    requires multiset(rest) == multiset(ds[1..]) + multiset{d}
    ensures forall x :: x in rest ==> TextLeq(json(ds[0]), json(x))
  {
    forall x | x in rest ensures TextLeq(json(ds[0]), json(x)) {
      assert x in multiset(rest);
      if x != d {
        assert x in multiset(ds[1..]);
        var j :| 0 <= j < |ds[1..]| && ds[1..][j] == x;
        assert ds[j + 1] == x;
      }
    }
  }

  lemma {:induction false} InsertSorted(d: Doc, ds: seq<Doc>, json: Doc -> string)
    requires SortedBy(ds, json)
    ensures SortedBy(Insert(d, ds, json), json)
  {
    if ds == [] {
    } else if TextLeq(json(d), json(ds[0])) {
      forall x | x in ds ensures TextLeq(json(d), json(x)) {
        var j :| 0 <= j < |ds| && ds[j] == x;
        if j > 0 {
          TextLeqTransitive(json(d), json(ds[0]), json(ds[j]));
        }
      }
      ConsSorted(d, ds, json);
    } else {
      var rest := Insert(d, ds[1..], json);
      SortedTail(ds, json);
      InsertSorted(d, ds[1..], json);
      TextLeqTotal(json(d), json(ds[0]));
      HeadIsLeast(d, ds, rest, json);
      ConsSorted(ds[0], rest, json);
    }
  }

  /** The list sorted by JSON text: same elements, ascending text. */
  function SortByJson(ds: seq<Doc>, json: Doc -> string): (r: seq<Doc>)
    ensures multiset(r) == multiset(ds)
    ensures SortedBy(r, json)
  {
    if ds == [] then []
    else
      assert ds == [ds[0]] + ds[1..];
      InsertSorted(ds[0], SortByJson(ds[1..], json), json);
      Insert(ds[0], SortByJson(ds[1..], json), json)
  }

  /** The sort is stable: documents that share one JSON text keep their
      input order. */
  lemma {:induction false} SortKeepsEqualTexts(ds: seq<Doc>, json: Doc -> string)
    requires forall x, y :: x in ds && y in ds ==> json(x) == json(y)
    ensures SortByJson(ds, json) == ds
  {
    if ds != [] {
      assert forall x :: x in ds[1..] ==> x in ds;
      SortKeepsEqualTexts(ds[1..], json);
      if |ds| > 1 {
        TextLeqReflexive(json(ds[0]));
        assert ds[1] in ds;
      }
      assert ds == [ds[0]] + ds[1..];
    }
  }

  /** Two sorted lists with the same elements start with the same one. */
  lemma SortedHeads(r1: seq<Doc>, r2: seq<Doc>, json: Doc -> string)
    requires InjectiveOn(r1, json)
    requires SortedBy(r1, json) && SortedBy(r2, json)
    requires multiset(r1) == multiset(r2) && r1 != []
    ensures r2 != [] && r1[0] == r2[0]
  {
    assert r1[0] in multiset(r2);
    assert r2[0] in multiset(r1);
    var i :| 0 <= i < |r1| && r1[i] == r2[0];
    var j :| 0 <= j < |r2| && r2[j] == r1[0];
    TextLeqReflexive(json(r1[0]));
    TextLeqReflexive(json(r2[0]));
    assert TextLeq(json(r1[0]), json(r2[0]));
    assert TextLeq(json(r2[0]), json(r1[0]));
    TextLeqAntisymmetric(json(r1[0]), json(r2[0]));
  }

  /** When its elements have distinct texts, the elements alone fix the
      sorted list. */
  lemma {:induction false} SortedUnique(r1: seq<Doc>, r2: seq<Doc>, json: Doc -> string)
    requires InjectiveOn(r1, json)
    requires SortedBy(r1, json) && SortedBy(r2, json)
    requires multiset(r1) == multiset(r2)
    ensures r1 == r2
  {
    if r1 != [] {
      SortedHeads(r1, r2, json);
      assert r1 == [r1[0]] + r1[1..] && r2 == [r2[0]] + r2[1..];
      assert multiset(r1[1..]) == multiset(r1) - multiset{r1[0]};
      assert multiset(r2[1..]) == multiset(r2) - multiset{r2[0]};
      SortedTail(r1, json);
      SortedTail(r2, json);
      assert forall d :: d in r1[1..] ==> d in r1;
      SortedUnique(r1[1..], r2[1..], json);
    }
  }

  /** Permuting the input does not change the sorted list. */
  lemma SortIgnoresOrder(p: seq<Doc>, q: seq<Doc>, json: Doc -> string)
    requires InjectiveOn(p, json)
    requires multiset(p) == multiset(q)
    ensures SortByJson(p, json) == SortByJson(q, json)
  {
    InjectiveOnSameElements(p, SortByJson(p, json), json);
    SortedUnique(SortByJson(p, json), SortByJson(q, json), json);
  }
}
