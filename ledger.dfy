/**
  The assignment ledger of the picker: the Firestore `assignments` collection, seen
  through decryption as a sequence of (giver, receiver) name pairs in collection order,
  together with the two pure computations the picker does over it: looking up the
  giver's existing record and computing the pool of receivers still available.
 */
module Ledger {
  import opened Wrappers
  import opened Seqs

  datatype Assignment = Assignment(giver: string, receiver: string)

  /** The decrypted `receiver` field of every record, in ledger order. */
  function Receivers(ledger: seq<Assignment>): (rs: seq<string>)
    ensures |rs| == |ledger| && forall i :: 0 <= i < |ledger| ==> rs[i] == ledger[i].receiver
  {
    seq(|ledger|, i requires 0 <= i < |ledger| => ledger[i].receiver)
  }

  /** No record assigns a giver to themselves. */
  predicate NoSelfAssignment(ledger: seq<Assignment>) {
    forall i :: 0 <= i < |ledger| ==> ledger[i].giver != ledger[i].receiver
  }

  /** No person is received-to twice. */
  predicate DistinctReceivers(ledger: seq<Assignment>) {
    forall i, j :: 0 <= i < j < |ledger| ==> ledger[i].receiver != ledger[j].receiver
  }

  /** The allocation invariant the pool filter is there to keep. */
  predicate Consistent(ledger: seq<Assignment>) {
    NoSelfAssignment(ledger) && DistinctReceivers(ledger)
  }

  /**
    The position of the first record, at or after `from`, whose giver is `name`, or
    None when there is none: the record whose receiver the picker shows to a giver
    who has already drawn.

    This is the lookup the picker intends, by name. The code looks up an encryption of
    the name under a fresh random salt, which never equals a stored one; see
    Codec.QueryByCiphertext.
   */
  function FindGiverFrom(ledger: seq<Assignment>, name: string, from: nat): (r: Option<nat>)
    requires from <= |ledger|
    ensures r.Some? ==> from <= r.value < |ledger| && ledger[r.value].giver == name
    ensures r.Some? ==> forall j :: from <= j < r.value ==> ledger[j].giver != name
    ensures r.None? ==> forall j :: from <= j < |ledger| ==> ledger[j].giver != name
    decreases |ledger| - from
  {
    if from == |ledger| then None
    else if ledger[from].giver == name then Some(from)
    else FindGiverFrom(ledger, name, from + 1)
  }

  function FindGiver(ledger: seq<Assignment>, name: string): (r: Option<nat>)
    ensures r.Some? ==> r.value < |ledger| && ledger[r.value].giver == name
    ensures r.Some? ==> forall j :: 0 <= j < r.value ==> ledger[j].giver != name
    ensures r.None? <==> forall j :: 0 <= j < |ledger| ==> ledger[j].giver != name
  {
    FindGiverFrom(ledger, name, 0)
  }

  /** Whether `p` may be drawn by `giver`: it is not the giver's own (untrimmed) name and nobody has drawn it yet. */
  predicate Eligible(p: string, giver: string, taken: seq<string>) {
    p != giver && p !in taken
  }

  /** The roster with the giver and every already assigned receiver filtered out, in roster order. */
  function Pool(roster: seq<string>, giver: string, taken: seq<string>): (pool: seq<string>)
    ensures |pool| <= |roster|
    ensures forall p :: p in pool ==> p in roster && p != giver && p !in taken
  {
    Filter(roster, p => Eligible(p, giver, taken))
  }

  /** A name is in the pool exactly when it is on the roster and eligible. */
  lemma PoolMembers(roster: seq<string>, giver: string, taken: seq<string>, p: string)
    ensures p in Pool(roster, giver, taken) <==> p in roster && p != giver && p !in taken
  {
    FilterMembers(roster, p => Eligible(p, giver, taken), p);
  }

  /** The pool keeps roster duplicates: an eligible name occurs in it as often as on the roster. */
  lemma PoolMultiplicity(roster: seq<string>, giver: string, taken: seq<string>, p: string)
    ensures multiset(Pool(roster, giver, taken))[p]
         == if p != giver && p !in taken then multiset(roster)[p] else 0
  {
    FilterMultiplicity(roster, p => Eligible(p, giver, taken), p);
  }

  /**
    The pool is the order-preserving subsequence of the roster made of exactly its
    eligible entries: `idx` lists the roster positions it is taken from, in increasing
    order, and a roster position is listed exactly when its entry is eligible.
   */
  lemma PoolPositions(roster: seq<string>, giver: string, taken: seq<string>) returns (idx: seq<nat>)
    ensures |idx| == |Pool(roster, giver, taken)|
    ensures forall k :: 0 <= k < |idx| ==> idx[k] < |roster| && roster[idx[k]] == Pool(roster, giver, taken)[k]
    ensures Increasing(idx)
    ensures forall i :: 0 <= i < |roster| ==> (roster[i] != giver && roster[i] !in taken <==> i in idx)
  {
    idx := FilterPositions(roster, p => Eligible(p, giver, taken));
  }

  /**
    The allocation invariant: a receiver drawn from a pool computed against the current
    ledger is neither the giver nor an existing receiver, so appending the record keeps
    the ledger consistent.
   */
  lemma DrawKeepsConsistent(roster: seq<string>, ledger: seq<Assignment>, giver: string, receiver: string)
    requires Consistent(ledger)
    requires receiver in Pool(roster, giver, Receivers(ledger))
    ensures receiver != giver && receiver !in Receivers(ledger)
    ensures Consistent(ledger + [Assignment(giver, receiver)])
  {
    PoolMembers(roster, giver, Receivers(ledger), receiver);
    var next := ledger + [Assignment(giver, receiver)];
    forall i, j | 0 <= i < j < |next|
      ensures next[i].receiver != next[j].receiver
    {
      if j == |ledger| {
        assert next[i].receiver == Receivers(ledger)[i];
      }
    }
  }

  /**
    A pool that is not recomputed can break the invariant: with the roster ["Bob", "Bob"]
    and an empty ledger, Alice's pool holds Bob twice, and drawing both entries leaves
    Bob received-to twice.
   */
  lemma StalePoolRepeatsReceiver()
    ensures Pool(["Bob", "Bob"], "Alice", Receivers([])) == ["Bob", "Bob"]
    ensures !DistinctReceivers([Assignment("Alice", "Bob"), Assignment("Alice", "Bob")])
  {
    var keep := p => Eligible(p, "Alice", Receivers([]));
    FilterKeepsAll(["Bob", "Bob"], keep);
    var l := [Assignment("Alice", "Bob"), Assignment("Alice", "Bob")];
    assert l[0].receiver == l[1].receiver;
  }

  /**
    The pool and the invariant compare names as typed: a giver who types " Alice" is shown
    the roster entry "Alice", and the ledger in which " Alice" drew "Alice" counts as
    consistent.
   */
  lemma UntrimmedGiverDrawsSelf()
    ensures Pool(["Alice"], " Alice", Receivers([])) == ["Alice"]
    ensures Consistent([Assignment(" Alice", "Alice")])
  {
    var keep := p => Eligible(p, " Alice", Receivers([]));
    assert " Alice" != "Alice" by { assert |" Alice"| != |"Alice"|; }
    FilterKeepsAll(["Alice"], keep);
  }

  /**
    Once Alice has drawn Bob, Bob's pool on the roster [Alice, Bob, Carol] is
    [Alice, Carol]: Bob leaves his own pool as the giver, Alice stays because nobody has
    drawn her.
   */
  lemma BobAfterAliceDrawsBob()
    ensures Pool(["Alice", "Bob", "Carol"], "Bob", Receivers([Assignment("Alice", "Bob")])) == ["Alice", "Carol"]
  {
    var taken := Receivers([Assignment("Alice", "Bob")]);
    assert taken == ["Bob"];
    var roster := ["Alice", "Bob", "Carol"];
    assert roster[1..] == ["Bob", "Carol"] && roster[1..][1..] == ["Carol"] && roster[1..][1..][1..] == [];
    assert Pool(roster, "Bob", taken) == ["Alice"] + Filter(["Bob", "Carol"], p => Eligible(p, "Bob", taken));
  }
}
