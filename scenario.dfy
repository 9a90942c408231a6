/**
  Walk-throughs of the flow, verified from the operations' contracts alone. On the roster
  Alice, Bob, Carol: Alice draws Bob and the ledger stays consistent; Bob's pool is then
  Alice and Carol; Alice starting again is shown Bob and no chits, which holds with the
  by-name lookup of the model (the code's query by a freshly salted ciphertext would miss
  her record and show her a fresh pool). On the roster Bob, Bob:
  Alice turns over both chits and Bob becomes a receiver twice.
 */
module Scenario {
  import opened Wrappers
  import opened Text
  import opened Ledger
  import opened Store
  import opened PeopleService
  import opened PickerComponent

  lemma AlicePool()
    ensures Pool(["Alice", "Bob", "Carol"], "Alice", Receivers([])) == ["Bob", "Carol"]
  {
    var roster := ["Alice", "Bob", "Carol"];
    assert roster[1..] == ["Bob", "Carol"] && roster[1..][1..] == ["Carol"] && roster[1..][1..][1..] == [];
  }

  lemma NotBlank(s: string)
    requires s != [] && !IsWhitespace(s[0]) && !IsWhitespace(s[|s| - 1])
    ensures !IsBlank(s)
  {
  }

  /** The roster Alice, Bob, Carol with an empty ledger. */
  method NewExchange() returns (store: Firestore)
    ensures fresh(store) && store.Valid()
    ensures Names(store.people) == ["Alice", "Bob", "Carol"] && store.assignments == []
  {
    store := new Firestore();
    var service := new People(store);
    service.AddPeople(["Alice", "Bob", "Carol"]);
  }

  method AliceDrawsBob()
  {
    var store := NewExchange();
    var alice := new Picker(store);
    alice.yourName := "Alice";
    NotBlank("Alice");
    assert FindGiver([], "Alice") == None;
    alice.Start(false);
    assert alice.people == ["Alice", "Bob", "Carol"];
    assert store.assignments == [];
    AlicePool();
    assert alice.ShowsPool(["Bob", "Carol"]);
    RevealFirstChit(alice);
  }

  /** Alice, shown the chits Bob and Carol, turns over Bob. */
  method RevealFirstChit(alice: Picker)
    requires alice.yourName == "Alice" && alice.people == ["Alice", "Bob", "Carol"]
    requires alice.firestore.assignments == [] && alice.ShowsPool(["Bob", "Carol"])
    modifies alice.chits, alice.firestore
  {
    var store := alice.firestore;
    var bob := alice.chits[0];
    assert bob.name == "Bob" && !bob.revealed;
    AlicePool();
    assert bob.name in Pool(alice.people, "Alice", Receivers(store.assignments));
    alice.RevealChit(bob, false);
    assert store.assignments == [Assignment("Alice", "Bob")];
    assert Consistent(store.assignments);
  }

  method BobDrawsAfterAlice()
  {
    var store := NewExchange();
    store.AddAssignmentDoc(Assignment("Alice", "Bob"));
    var bob := new Picker(store);
    bob.yourName := "Bob";
    NotBlank("Bob");
    assert FindGiver([Assignment("Alice", "Bob")], "Bob") == None;
    bob.Start(false);
    assert bob.people == ["Alice", "Bob", "Carol"];
    assert store.assignments == [Assignment("Alice", "Bob")];
    BobAfterAliceDrawsBob();
    assert bob.ShowsPool(["Alice", "Carol"]);
  }

  method AliceComesBack()
  {
    var store := NewExchange();
    store.AddAssignmentDoc(Assignment("Alice", "Bob"));
    var again := new Picker(store);
    again.yourName := "Alice";
    NotBlank("Alice");
    assert FindGiver([Assignment("Alice", "Bob")], "Alice") == Some(0);
    again.Start(false);
    assert again.alreadyHasReceiver && again.assignedReceiverName == "Bob" && again.chits == [];
  }

  /**
    The roster Bob, Bob: Alice is shown two Bob chits, turns over both through
    `revealChit`, and the ledger then names Bob as a receiver twice.
   */
  method DuplicateRosterDrawnTwice()
  {
    var store := new Firestore();
    var service := new People(store);
    service.AddPeople(["Bob", "Bob"]);
    assert Names(store.people) == ["Bob", "Bob"];
    var alice := new Picker(store);
    alice.yourName := "Alice";
    NotBlank("Alice");
    assert FindGiver([], "Alice") == None;
    alice.Start(false);
    assert alice.people == ["Bob", "Bob"];
    assert store.assignments == [];
    StalePoolRepeatsReceiver();
    assert alice.ShowsPool(["Bob", "Bob"]);
    RevealBothChits(alice);
  }

  /** Alice, shown two distinct Bob chits, turns over the first and then the second. */
  method RevealBothChits(alice: Picker)
    requires alice.yourName == "Alice" && alice.firestore.assignments == []
    requires alice.ShowsPool(["Bob", "Bob"]) && alice.chits[0] != alice.chits[1]
    modifies alice.chits, alice.firestore
  {
    var store := alice.firestore;
    var first, second := alice.chits[0], alice.chits[1];
    alice.RevealChit(first, false);
    assert store.assignments == [Assignment("Alice", "Bob")];
    assert !second.revealed && second.name == "Bob";
    alice.RevealChit(second, false);
    assert store.assignments == [Assignment("Alice", "Bob"), Assignment("Alice", "Bob")];
    StalePoolRepeatsReceiver();
    assert !DistinctReceivers(store.assignments);
  }
}
