/**
  The `People` service of the roster screens: reading the names of the `people`
  collection, adding documents, and removing every document with a given name.
  Observables and `forkJoin` become sequential calls on the in-memory store.
 */
module PeopleService {
  import opened Seqs
  import opened Store

  /** The collection with every document named `name` removed, the rest in order. */
  function WithoutName(docs: seq<PersonDoc>, name: string): (r: seq<PersonDoc>)
    ensures |r| <= |docs|
    ensures forall d :: d in r ==> d in docs && d.name != name
  {
    Filter(docs, (d: PersonDoc) => d.name != name)
  }

  /** The test `d => d.data()['name'] === name`. */
  function NameIs(name: string): PersonDoc -> bool {
    (d: PersonDoc) => d.name == name
  }

  /** `snap.docs.filter(d => d.data()['name'] === name)`, as the ids that are then deleted. */
  function MatchingIds(docs: seq<PersonDoc>, name: string): (ids: seq<nat>)
    ensures |ids| <= |docs|
  {
    Ids(Filter(docs, NameIs(name)))
  }

  /**
    The ids to delete are those of exactly the documents named `name`, taken at increasing
    positions of the collection.
   */
  lemma MatchingIdsPositions(docs: seq<PersonDoc>, name: string) returns (idx: seq<nat>)
    ensures |idx| == |MatchingIds(docs, name)|
    ensures forall k :: 0 <= k < |idx| ==>
              idx[k] < |docs| && docs[idx[k]].id == MatchingIds(docs, name)[k] && docs[idx[k]].name == name
    ensures Increasing(idx)
    ensures forall i :: 0 <= i < |docs| ==> (docs[i].name == name <==> i in idx)
  {
    idx := FilterPositions(docs, NameIs(name));
  }

  /** A document survives removal of `name` exactly when it is in the collection and has another name. */
  lemma WithoutNameMembers(docs: seq<PersonDoc>, name: string, d: PersonDoc)
    ensures d in WithoutName(docs, name) <==> d in docs && d.name != name
  {
    FilterMembers(docs, (d: PersonDoc) => d.name != name, d);
  }

  /**
    Removal keeps exactly the documents with a different name, in their order: `idx`
    lists the positions kept, increasing, and a position is kept exactly when its
    document's name is not `name`.
   */
  lemma WithoutNamePositions(docs: seq<PersonDoc>, name: string) returns (idx: seq<nat>)
    ensures |idx| == |WithoutName(docs, name)|
    ensures forall k :: 0 <= k < |idx| ==> idx[k] < |docs| && docs[idx[k]] == WithoutName(docs, name)[k]
    ensures Increasing(idx)
    ensures forall i :: 0 <= i < |docs| ==> (docs[i].name != name <==> i in idx)
  {
    idx := FilterPositions(docs, (d: PersonDoc) => d.name != name);
  }

  /** Removing a name no document has changes nothing. */
  lemma WithoutAbsentName(docs: seq<PersonDoc>, name: string)
    requires forall i :: 0 <= i < |docs| ==> docs[i].name != name
    ensures WithoutName(docs, name) == docs
  {
    FilterKeepsAll(docs, (d: PersonDoc) => d.name != name);
  }

  /**
    With distinct document ids, deleting the ids of the documents named `name` leaves
    the same collection as removing the documents named `name`.
   */
  lemma DeletingMatchesRemovesName(docs: seq<PersonDoc>, name: string)
    requires UniqueIds(docs)
    ensures WithoutIds(docs, MatchingIds(docs, name)) == WithoutName(docs, name)
  {
    var named := NameIs(name);
    var hits := Filter(docs, named);
    var m := MatchingIds(docs, name);
    forall i | 0 <= i < |docs|
      ensures (docs[i].id !in m) == (docs[i].name != name)
    {
      FilterMembers(docs, named, docs[i]);
      if docs[i].name == name {
        var k :| 0 <= k < |hits| && hits[k] == docs[i];
        assert m[k] == docs[i].id;
      }
      if docs[i].id in m {
        var k :| 0 <= k < |m| && m[k] == docs[i].id;
        FilterMembers(docs, named, hits[k]);
        var j :| 0 <= j < |docs| && docs[j] == hits[k];
        assert docs[j].id == docs[i].id;
        assert i == j;
      }
    }
    FilterCongruent(docs, (d: PersonDoc) => d.id !in m, (d: PersonDoc) => d.name != name);
  }

  class People {
    const firestore: Firestore

    constructor (firestore: Firestore)
      ensures this.firestore == firestore
    {
      this.firestore := firestore;
    }

    /** `loadPeople`: the names of the `people` documents, one per document, in collection order. */
    method LoadPeople() returns (names: seq<string>)
      ensures |names| == |firestore.people|
      ensures forall i :: 0 <= i < |names| ==> names[i] == firestore.people[i].name
    {
      names := Names(firestore.people);
    }

    /** `addPerson`: one new document. */
    method AddPerson(name: string)
      requires firestore.Valid()
      modifies firestore`people, firestore`nextId
      ensures firestore.Valid()
      ensures |firestore.people| == |old(firestore.people)| + 1
      ensures firestore.people[..|old(firestore.people)|] == old(firestore.people)
      ensures Names(firestore.people) == Names(old(firestore.people)) + [name]
    {
      NamesAppend(firestore.people, [PersonDoc(firestore.nextId, name)]);
      firestore.AddPersonDoc(name);
    }

    /** `addPeople`: nothing for an empty list; otherwise one new document per entry, duplicates included, after the existing ones. */
    method AddPeople(names: seq<string>)
      requires firestore.Valid()
      modifies firestore`people, firestore`nextId
      ensures firestore.Valid()
      ensures names == [] ==> firestore.people == old(firestore.people)
      ensures |firestore.people| == |old(firestore.people)| + |names|
      ensures firestore.people[..|old(firestore.people)|] == old(firestore.people)
      ensures Names(firestore.people) == Names(old(firestore.people)) + names
    {
      if |names| == 0 {
        return;
      }
      for i := 0 to |names|
        invariant firestore.Valid()
        invariant |firestore.people| == |old(firestore.people)| + i
        invariant firestore.people[..|old(firestore.people)|] == old(firestore.people)
        invariant Names(firestore.people) == Names(old(firestore.people)) + names[..i]
      {
        AddPerson(names[i]);
        assert names[..i + 1] == names[..i] + [names[i]];
      }
      assert names[..|names|] == names;
    }

    /** `forkJoin` of one `deleteDoc` per id: the documents with those ids are gone, the others stay in order. */
    method DeleteAll(ids: seq<nat>)
      requires firestore.Valid()
      modifies firestore`people
      ensures firestore.Valid()
      ensures firestore.people == WithoutIds(old(firestore.people), ids)
    {
      ghost var before := firestore.people;
      FilterKeepsAll(before, (d: PersonDoc) => d.id !in ids[..0]);
      for i := 0 to |ids|
        invariant firestore.Valid()
        invariant firestore.people == WithoutIds(before, ids[..i])
      {
        ghost var done := ids[..i];
        WithoutIdsStep(before, done, ids[i]);
        firestore.DeletePersonDoc(ids[i]);
        assert firestore.people == WithoutIds(before, done + [ids[i]]);
        assert ids[..i + 1] == done + [ids[i]];
      }
      assert ids[..|ids|] == ids;
    }

    /** `removePersonByName`: deletes every document named `name` and keeps the others in order; no match is a no-op. */
    method RemovePersonByName(name: string)
      requires firestore.Valid()
      modifies firestore`people
      ensures firestore.Valid()
      ensures firestore.people == WithoutName(old(firestore.people), name)
      ensures (forall i :: 0 <= i < |old(firestore.people)| ==> old(firestore.people)[i].name != name)
              ==> firestore.people == old(firestore.people)
    {
      var before := firestore.people;
      var matches := MatchingIds(before, name);
      DeletingMatchesRemovesName(before, name);
      if forall i :: 0 <= i < |before| ==> before[i].name != name {
        WithoutAbsentName(before, name);
      }
      if |matches| == 0 {
        FilterKeepsAll(before, (d: PersonDoc) => d.id !in matches);
        return;
      }
      DeleteAll(matches);
    }
  }
}
