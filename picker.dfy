/**
  The picker screen: a giver enters their name and starts; the picker either shows the
  receiver already recorded for them or lays out one face-down chit per person they may
  still draw; revealing a chit records the draw in the `assignments` collection.

  The ledger is read through decryption (see Codec.DecodeEncodeAssignment), so the model
  keeps it as names. The giver lookup is the by-name match `FindGiver`; the code's own
  query compares a freshly salted encryption of the name and cannot match a stored
  record (Codec.FreshSaltQueryMisses). A rejected Firestore or crypto call inside the
  `try` blocks is the `fault` parameter.
 */
module PickerComponent {
  import opened Wrappers
  import opened Text
  import opened Ledger
  import opened Store

  /** A chit on the table. Its position and rotation are random and not modelled. */
  class Chit {
    const name: string
    var revealed: bool

    constructor (name: string)
      ensures this.name == name && !revealed
    {
      this.name := name;
      revealed := false;
    }
  }

  class Picker {
    var yourName: string
    var started: bool
    var people: seq<string>
    var chits: seq<Chit>
    var loading: bool
    var alreadyHasReceiver: bool
    var assignedReceiverName: string
    const firestore: Firestore

    constructor (firestore: Firestore)
      ensures yourName == "" && !started && people == [] && chits == []
      ensures !loading && !alreadyHasReceiver && assignedReceiverName == ""
      ensures this.firestore == firestore
    {
      yourName, started, people, chits := "", false, [], [];
      loading, alreadyHasReceiver, assignedReceiverName := false, false, "";
      this.firestore := firestore;
    }

    /** The chits show `pool`: one unrevealed chit per entry, with its name, in its order. */
    ghost predicate ShowsPool(pool: seq<string>)
      reads this, chits
    {
      |chits| == |pool| && forall i :: 0 <= i < |chits| ==> chits[i].name == pool[i] && !chits[i].revealed
    }

    /**
      What `loadData` leaves behind, against the state before it: loading is over; after
      a fault nothing else changed; a giver with a record sees its receiver and keeps the
      old chits; any other giver gets the current roster and a fresh chit for every
      entry of their pool.
     */
    twostate predicate Loaded(fault: bool)
      reads this, firestore, chits
    {
      && !loading
      && yourName == old(yourName)
      && (fault ==>
            && people == old(people) && chits == old(chits)
            && alreadyHasReceiver == old(alreadyHasReceiver)
            && assignedReceiverName == old(assignedReceiverName))
      && (!fault ==>
            match FindGiver(firestore.assignments, yourName)
            case Some(k) =>
              && alreadyHasReceiver
              && assignedReceiverName == firestore.assignments[k].receiver
              && people == old(people) && chits == old(chits)
            case None =>
              && people == Names(firestore.people)
              && ShowsPool(Pool(people, yourName, Receivers(firestore.assignments)))
              && (forall i :: 0 <= i < |chits| ==> fresh(chits[i]))
              && (forall i, j :: 0 <= i < j < |chits| ==> chits[i] != chits[j])
              && alreadyHasReceiver == old(alreadyHasReceiver)
              && assignedReceiverName == old(assignedReceiverName))
    }

    /** `start`: a name that is blank once trimmed changes nothing; otherwise the picker starts and loads. */
    method Start(fault: bool)
      modifies this
      ensures IsBlank(old(yourName)) ==> unchanged(this)
      ensures !IsBlank(old(yourName)) ==> started && Loaded(fault)
    {
      if IsBlank(yourName) {
        return;
      }
      started := true;
      LoadData(fault);
    }

    /**
      `loadData`. The pool filter compares each roster entry with `yourName` as typed,
      untrimmed, although `start` tested the trimmed name.
     */
    method LoadData(fault: bool)
      modifies this
      ensures started == old(started)
      ensures Loaded(fault)
    {
      loading := true;
      if fault {
        loading := false;
        return;
      }
      var found := FindGiver(firestore.assignments, yourName);
      if found.Some? {
        alreadyHasReceiver := true;
        assignedReceiverName := firestore.assignments[found.value].receiver;
        loading := false;
        return;
      }
      people := Names(firestore.people);
      var filtered := Pool(people, yourName, Receivers(firestore.assignments));
      var made: seq<Chit> := [];
      for i := 0 to |filtered|
        modifies {}
        invariant |made| == i
        invariant forall k :: 0 <= k < i ==> made[k].name == filtered[k] && !made[k].revealed
        invariant forall k :: 0 <= k < i ==> fresh(made[k])
        invariant forall k, l :: 0 <= k < l < i ==> made[k] != made[l]
      {
        var chit := new Chit(filtered[i]);
        made := made + [chit];
      }
      chits := made;
      loading := false;
    }

    /**
      `revealChit`: a revealed chit is left as it is. Otherwise the chit is turned over
      and, unless the write fails, one record (yourName, chit.name) is appended; it is
      not written again after a failure. Nothing is re-checked before the write. When the
      chit's name is in the giver's pool against the ledger as it is now, the append
      keeps the ledger consistent.
     */
    method RevealChit(chit: Chit, fault: bool)
      modifies chit, firestore`assignments
      ensures chit.revealed
      ensures old(chit.revealed) || fault ==> firestore.assignments == old(firestore.assignments)
      ensures !old(chit.revealed) && !fault ==>
                firestore.assignments == old(firestore.assignments) + [Assignment(yourName, chit.name)]
      ensures old(Consistent(firestore.assignments))
              && old(chit.name in Pool(people, yourName, Receivers(firestore.assignments)))
              ==> Consistent(firestore.assignments)
    {
      if chit.revealed {
        return;
      }
      chit.revealed := true;
      if fault {
        return;
      }
      if Consistent(firestore.assignments) && chit.name in Pool(people, yourName, Receivers(firestore.assignments)) {
        DrawKeepsConsistent(people, firestore.assignments, yourName, chit.name);
      }
      firestore.AddAssignmentDoc(Assignment(yourName, chit.name));
    }
  }
}
