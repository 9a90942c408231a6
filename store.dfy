/**
  The two Firestore collections the application uses, held in memory: `people`, one
  document per roster entry, and `assignments`, the ledger. Firestore's generated
  document ids are modelled as distinct numbers from a counter; `getDocs` returns the
  documents in sequence order.
 */
module Store {
  import opened Ledger
  import opened Seqs

  datatype PersonDoc = PersonDoc(id: nat, name: string)

  /** `snap.docs.map(d => d.data()['name'])`: one name per document, in collection order. */
  function Names(docs: seq<PersonDoc>): (names: seq<string>)
    ensures |names| == |docs| && forall i :: 0 <= i < |docs| ==> names[i] == docs[i].name
  {
    if docs == [] then [] else [docs[0].name] + Names(docs[1..])
  }

  lemma {:induction false} NamesAppend(docs: seq<PersonDoc>, more: seq<PersonDoc>)
    ensures Names(docs + more) == Names(docs) + Names(more)
  {
    var l, r := Names(docs + more), Names(docs) + Names(more);
    forall i | 0 <= i < |l|
      ensures l[i] == r[i]
    {
      if i < |docs| {
        assert (docs + more)[i] == docs[i];
      } else {
        assert (docs + more)[i] == more[i - |docs|];
      }
    }
  }

  /** The ids of the documents, in collection order. */
  function Ids(docs: seq<PersonDoc>): seq<nat> {
    seq(|docs|, i requires 0 <= i < |docs| => docs[i].id)
  }

  predicate UniqueIds(docs: seq<PersonDoc>) {
    forall i, j :: 0 <= i < j < |docs| ==> docs[i].id != docs[j].id
  }

  /** The collection after `deleteDoc` of each of the given ids. */
  function WithoutIds(docs: seq<PersonDoc>, ids: seq<nat>): seq<PersonDoc> {
    Filter(docs, (d: PersonDoc) => d.id !in ids)
  }

  /** Deleting one more id after a batch is deleting the extended batch. */
  lemma {:induction false} WithoutIdsStep(docs: seq<PersonDoc>, ids: seq<nat>, id: nat)
    ensures WithoutIds(WithoutIds(docs, ids), [id]) == WithoutIds(docs, ids + [id])
  {
    if docs != [] {
      WithoutIdsStep(docs[1..], ids, id);
      var d := docs[0];
      assert (d.id !in ids + [id]) == (d.id !in ids && d.id != id);
      if d.id !in ids {
        assert WithoutIds(docs, ids) == [d] + WithoutIds(docs[1..], ids);
        assert WithoutIds(docs, ids)[1..] == WithoutIds(docs[1..], ids);
      } else {
        assert WithoutIds(docs, ids) == WithoutIds(docs[1..], ids);
      }
    }
  }

  class Firestore {
    var people: seq<PersonDoc>
    var assignments: seq<Assignment>
    var nextId: nat

    /** Document ids are distinct, and below the counter that the next id is taken from. */
    ghost predicate Valid()
      reads this
    {
      UniqueIds(people) && forall i :: 0 <= i < |people| ==> people[i].id < nextId
    }

    constructor ()
      ensures Valid() && people == [] && assignments == []
    {
      people, assignments, nextId := [], [], 0;
    }

    /** `addDoc(collection(firestore, 'people'), { name })`. */
    method AddPersonDoc(name: string)
      requires Valid()
      modifies this`people, this`nextId
      ensures Valid()
      ensures people == old(people) + [PersonDoc(old(nextId), name)]
    {
      people := people + [PersonDoc(nextId, name)];
      nextId := nextId + 1;
    }

    /** `deleteDoc(doc(firestore, 'people', id))`: removes the document with that id, if any. */
    method DeletePersonDoc(id: nat)
      requires Valid()
      modifies this`people
      ensures Valid()
      ensures people == WithoutIds(old(people), [id])
    {
      var before := people;
      people := WithoutIds(people, [id]);
      ghost var pos := FilterPositions(before, (d: PersonDoc) => d.id !in [id]);
      forall i, j | 0 <= i < j < |people|
        ensures people[i].id != people[j].id
      {
        assert pos[i] < pos[j];
      }
    }

    /** `addDoc(collection(firestore, 'assignments'), { giver, receiver, ... })`. */
    method AddAssignmentDoc(a: Assignment)
      modifies this`assignments
      ensures assignments == old(assignments) + [a]
    {
      assignments := assignments + [a];
    }
  }
}
