/**
 * `InMemoryCollection` (src/backend/db/models.py): the stand-in for a MongoDB
 * collection used in development mode and when the connection fails. Its storage is
 * a dictionary from `str(id)` to document, iterated in insertion order; here it is the
 * sequence of documents in that order, each carrying its numeric id.
 */
module Collection {
  import opened Wrappers
  import opened Text

  /** A stored document: its `_id` (the string form of `key`), its `name` and its integer fields. */
  datatype Doc = Doc(key: nat, name: string, fields: map<string, int>)

  /** The first position holding a document called `name`, as the loops over `storage.items()` find it. */
  function FirstIndex(docs: seq<Doc>, name: string): (r: Option<nat>)
    ensures r.Some? ==> r.value < |docs| && docs[r.value].name == name
    ensures r.Some? ==> forall j :: 0 <= j < r.value ==> docs[j].name != name
    ensures r.None? ==> forall j :: 0 <= j < |docs| ==> docs[j].name != name
  {
    if docs == [] then None
    else if docs[0].name == name then Some(0)
    else match FirstIndex(docs[1..], name)
      case None => None
      case Some(i) => Some(i + 1)
  }

  /** A field's value, 0 when missing (`doc.get(field, 0)`). */
  function Get(fields: map<string, int>, f: string): int {
    if f in fields then fields[f] else 0
  }

  /** The fields after `$inc`: every incremented field holds its old value (0 if missing) plus the delta. */
  function Incremented(fields: map<string, int>, inc: map<string, int>): (r: map<string, int>)
    ensures r.Keys == fields.Keys + inc.Keys
    ensures forall f :: f in inc ==> r[f] == Get(fields, f) + inc[f]
    ensures forall f :: f in fields && f !in inc ==> r[f] == fields[f]
  {
    map f | f in fields.Keys + inc.Keys :: Get(fields, f) + Get(inc, f)
  }

  /** Ids increase along the storage order and never exceed the counter. */
  predicate KeysBelow(docs: seq<Doc>, counter: nat) {
    && (forall i :: 0 <= i < |docs| ==> 1 <= docs[i].key <= counter)
    && (forall i, j :: 0 <= i < j < |docs| ==> docs[i].key < docs[j].key)
  }

  class InMemoryCollection {
    var docs: seq<Doc>
    var counter: nat

    ghost predicate Valid()
      reads this
    {
      KeysBelow(docs, counter)
    }

    /** A collection over a fresh, empty dictionary. */
    constructor()
      ensures Valid() && docs == [] && counter == 0
    {
      docs := [];
      counter := 0;
    }

    /**
     * `find_one(query)`: the first document whose name is the query's, or `None`; a
     * query without a "name" key matches nothing.
     */
    method FindOne(name: Option<string>) returns (r: Option<Doc>)
      ensures name.None? ==> r.None?
      ensures name.Some? ==> match FirstIndex(docs, name.value)
        case None => r.None?
        case Some(i) => r == Some(docs[i])
    {
      if name.None? {
        return None;
      }
      var i := 0;
      while i < |docs|
        invariant 0 <= i <= |docs|
        invariant forall j :: 0 <= j < i ==> docs[j].name != name.value
      {
        if docs[i].name == name.value {
          return Some(docs[i]);
        }
        i := i + 1;
      }
      return None;
    }

    /**
     * `update_one(query, {"$inc": inc})`: apply every delta to the first document with
     * the query's name and report `True`; with no such document, or no name in the
     * query, change nothing and report `False`. `inc` is `None` when the update has no
     * "$inc" key, in which case a match is reported but nothing changes.
     */
    method UpdateOne(name: Option<string>, inc: Option<map<string, int>>) returns (matched: bool)
      requires Valid()
      modifies this
      ensures Valid() && counter == old(counter)
      ensures matched <==> name.Some? && FirstIndex(old(docs), name.value).Some?
      ensures !matched ==> docs == old(docs)
      ensures matched ==> var i := FirstIndex(old(docs), name.value).value;
        docs == old(docs)[i := old(docs)[i].(fields := if inc.Some? then Incremented(old(docs)[i].fields, inc.value) else old(docs)[i].fields)]
    {
      if name.None? {
        return false;
      }
      var i := 0;
      while i < |docs|
        invariant 0 <= i <= |docs|
        invariant forall j :: 0 <= j < i ==> docs[j].name != name.value
      {
        if docs[i].name == name.value {
          if inc.Some? {
            var fields := ApplyIncrements(docs[i].fields, inc.value);
            docs := docs[i := docs[i].(fields := fields)];
          }
          return true;
        }
        i := i + 1;
      }
      return false;
    }

    /**
     * `insert_one(document)`: advance the counter and store the document under the new
     * counter value, which is returned as the inserted id.
     */
    method InsertOne(name: string, fields: map<string, int>) returns (key: nat)
      requires Valid()
      modifies this
      ensures Valid()
      ensures counter == old(counter) + 1 && key == counter
      ensures docs == old(docs) + [Doc(key, name, fields)]
      ensures forall i :: 0 <= i < |old(docs)| ==> old(docs)[i].key < key
    {
      counter := counter + 1;
      key := counter;
      docs := docs + [Doc(key, name, fields)];
    }

    /**
     * `delete_one(query)` as MongoDB collections provide it: remove the first document
     * with the query's name. The in-memory collection of the source lacks this method;
     * it is the correction the deletion path of the ledger needs.
     */
    method DeleteOne(name: Option<string>) returns (deleted: bool)
      requires Valid()
      modifies this
      ensures Valid() && counter == old(counter)
      ensures deleted <==> name.Some? && FirstIndex(old(docs), name.value).Some?
      ensures !deleted ==> docs == old(docs)
      ensures deleted ==> var i := FirstIndex(old(docs), name.value).value;
        docs == old(docs)[..i] + old(docs)[i + 1..]
    {
      if name.None? {
        return false;
      }
      var i := 0;
      while i < |docs|
        invariant 0 <= i <= |docs|
        invariant forall j :: 0 <= j < i ==> docs[j].name != name.value
      {
        if docs[i].name == name.value {
          docs := docs[..i] + docs[i + 1..];
          return true;
        }
        i := i + 1;
      }
      return false;
    }
  }

  /** The `for field, value in update["$inc"].items()` loop of `update_one`. */
  method ApplyIncrements(fields: map<string, int>, inc: map<string, int>) returns (r: map<string, int>)
    ensures r == Incremented(fields, inc)
  {
    r := fields;
    var todo := inc.Keys;
    while todo != {}
      invariant todo <= inc.Keys
      invariant r.Keys == fields.Keys + (inc.Keys - todo)
      invariant forall f :: f in inc && f !in todo ==> r[f] == Get(fields, f) + inc[f]
      invariant forall f :: f in fields && (f !in inc || f in todo) ==> r[f] == fields[f]
      decreases todo
    {
      var f :| f in todo;
      r := r[f := Get(r, f) + inc[f]];
      todo := todo - {f};
    }
  }

  /** Distinct ids have distinct string forms, so `str(counter)` never overwrites a stored document. */
  lemma KeysDistinct(docs: seq<Doc>, counter: nat, i: int, j: int)
    requires KeysBelow(docs, counter) && 0 <= i < |docs| && 0 <= j < |docs| && i != j
    ensures NatToDecimal(docs[i].key) != NatToDecimal(docs[j].key)
  {
    DecimalRoundTrip(docs[i].key);
    DecimalRoundTrip(docs[j].key);
  }
}
