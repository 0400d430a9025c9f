/** The part of the BSON document model (org.bson.Document) that the index
    validator relies on: an ordered, string-keyed tree of values, key lookup,
    and the typed getters that throw on a value of the wrong kind. */
module Bson {
  import opened Wrappers

  /** A BSON value. `Null` is a key that is present with a null value; an
      absent key is `None` from `Lookup`. Int32 and Int64 stay apart because
      Java's Integer and Long are never `equals` to each other. */
  datatype Node =
    | Null
    | Str(s: string)
    | Bool(b: bool)
    | Int32(i: int)
    | Int64(l: int)
    | Arr(items: seq<Node>)
    | Obj(entries: seq<(string, Node)>)

  /** A document: its entries in insertion order (a LinkedHashMap). */
  type Doc = seq<(string, Node)>

  /** The two exceptions a malformed mapping makes the validator raise. */
  datatype Fault = ClassCast | NullPointer

  /** `Document.get(key)`: the value of the first entry with that key. */
  function Lookup(d: Doc, key: string): (r: Option<Node>)
    ensures r.None? <==> forall i :: 0 <= i < |d| ==> d[i].0 != key
    ensures r.Some? ==> (key, r.value) in d
  {
    if d == [] then None
    else if d[0].0 == key then Some(d[0].1)
    else Lookup(d[1..], key)
  }

  /** `Document.containsKey(key)`. */
  predicate HasKey(d: Doc, key: string) {
    Lookup(d, key).Some?
  }

  /** A BSON document never repeats a key. */
  ghost predicate UniqueKeys(d: Doc) {
    forall i, j :: 0 <= i < j < |d| ==> d[i].0 != d[j].0
  }

  /** `Document.getBoolean(key)`: a cast to Boolean, so an absent key or a null
      value gives null and any other non-Boolean value throws. */
  function GetBoolean(d: Doc, key: string): Result<Option<bool>, Fault> {
    match Lookup(d, key)
    case None => Ok(None)
    case Some(Null) => Ok(None)
    case Some(Bool(b)) => Ok(Some(b))
    case Some(_) => Err(ClassCast)
  }

  /** `Document.get(key, Document.class)`: a cast to Document, so an absent key
      or a null value gives null and any other non-document value throws. */
  function GetDocument(d: Doc, key: string): Result<Option<Doc>, Fault> {
    match Lookup(d, key)
    case None => Ok(None)
    case Some(Null) => Ok(None)
    case Some(Obj(entries)) => Ok(Some(entries))
    case Some(_) => Err(ClassCast)
  }

  // Sizes, the termination measure of the recursive walk over mappings.

  function NodeSize(n: Node): nat {
    match n
    case Arr(items) => 1 + ItemsSize(items)
    case Obj(entries) => 1 + DocSize(entries)
    case _ => 1
  }

  function ItemsSize(items: seq<Node>): nat {
    if items == [] then 0 else NodeSize(items[0]) + ItemsSize(items[1..])
  }

  function DocSize(d: Doc): nat {
    if d == [] then 0
    else
      assert d[0] in d && d[0].1 < d[0];
      NodeSize(d[0].1) + DocSize(d[1..])
  }

  lemma {:induction false} EntrySize(d: Doc, i: nat)
    requires i < |d|
    ensures NodeSize(d[i].1) <= DocSize(d)
  {
    if i > 0 {
      EntrySize(d[1..], i - 1);
    }
  }

  lemma {:induction false} ItemSize(items: seq<Node>, i: nat)
    requires i < |items|
    ensures NodeSize(items[i]) <= ItemsSize(items)
  {
    if i > 0 {
      ItemSize(items[1..], i - 1);
    }
  }

  lemma {:induction false} LookupSize(d: Doc, key: string)
    requires HasKey(d, key)
    ensures NodeSize(Lookup(d, key).value) <= DocSize(d)
  {
    if d[0].0 != key {
      LookupSize(d[1..], key);
    }
  }

  /** With unique keys, looking up an entry's key finds that entry's value. */
  lemma {:induction false} LookupUnique(d: Doc, i: nat)
    requires UniqueKeys(d) && i < |d|
    ensures Lookup(d, d[i].0) == Some(d[i].1)
  {
    if i > 0 {
      assert d[0].0 != d[i].0;
      LookupUnique(d[1..], i - 1);
    }
  }
}
