/**
  The roster screen's staging list: names typed one at a time are trimmed and staged,
  can be removed again by position, and are sent to the `People` service together.
 */
module StagingList {
  import opened Text
  import opened Store
  import opened PeopleService

  /**
    Where `splice(index, 1)` starts: an index in range is taken as it is, a negative one
    counts from the end, one below `-len` starts at 0 and one at or past the end starts at `len`.
   */
  function SpliceStart(len: nat, index: int): (start: nat)
    ensures start <= len
    ensures 0 <= index < len ==> start == index
    ensures -(len as int) <= index < 0 ==> start == len + index
    ensures index < -(len as int) ==> start == 0
    ensures len <= index ==> start == len
  {
    if index < 0 then (if len + index < 0 then 0 else len + index)
    else if index < len then index
    else len
  }

  /** The list after `splice(index, 1)`: the element at the start position is removed, if there is one. */
  function SpliceOne<T>(s: seq<T>, index: int): (r: seq<T>)
    ensures |r| == if SpliceStart(|s|, index) < |s| then |s| - 1 else |s|
    ensures multiset(r) <= multiset(s)
  {
    var k := SpliceStart(|s|, index);
    if k < |s| then
      assert s == s[..k] + [s[k]] + s[k + 1..];
      s[..k] + s[k + 1..]
    else s
  }

  /** For an index in range exactly that element is removed: one shorter, the entries before and after it in their order. */
  lemma SpliceAt<T>(s: seq<T>, i: int)
    requires 0 <= i < |s|
    ensures |SpliceOne(s, i)| == |s| - 1
    ensures forall j :: 0 <= j < i ==> SpliceOne(s, i)[j] == s[j]
    ensures forall j :: i <= j < |s| - 1 ==> SpliceOne(s, i)[j] == s[j + 1]
    ensures multiset(SpliceOne(s, i)) == multiset(s) - multiset{s[i]}
  {
    assert s == s[..i] + [s[i]] + s[i + 1..];
  }

  /** An index at or past the end removes nothing. */
  lemma SplicePastEnd<T>(s: seq<T>, i: int)
    requires i >= |s|
    ensures SpliceOne(s, i) == s
  {
  }

  /** Whatever the index, every entry left was an entry before. */
  lemma SpliceKeepsEntries<T>(s: seq<T>, i: int)
    ensures forall x :: x in SpliceOne(s, i) ==> x in s
  {
    var k := SpliceStart(|s|, i);
    if k < |s| {
      assert forall x :: x in s[..k] ==> x in s;
      assert forall x :: x in s[k + 1..] ==> x in s;
    }
  }

  class PeopleList {
    var singleName: string
    var stagedPeople: seq<string>
    const peopleService: People

    /** Every staged entry is a non-empty, trimmed name. */
    ghost predicate Valid()
      reads this
    {
      forall i :: 0 <= i < |stagedPeople| ==> IsTrimmedName(stagedPeople[i])
    }

    constructor (peopleService: People)
      ensures Valid() && singleName == "" && stagedPeople == []
      ensures this.peopleService == peopleService
    {
      singleName, stagedPeople := "", [];
      this.peopleService := peopleService;
    }

    /** `addToStaged`: a blank input changes nothing; otherwise its trimmed form is appended and the input cleared. */
    method AddToStaged()
      requires Valid()
      modifies this`singleName, this`stagedPeople
      ensures Valid()
      ensures IsBlank(old(singleName)) ==> singleName == old(singleName) && stagedPeople == old(stagedPeople)
      ensures !IsBlank(old(singleName)) ==>
                stagedPeople == old(stagedPeople) + [Trim(old(singleName))] && singleName == ""
    {
      var name := Trim(singleName);
      if name == "" {
        return;
      }
      TrimOfNonBlankIsName(singleName);
      stagedPeople := stagedPeople + [name];
      singleName := "";
    }

    /** `removeStaged`: `splice(index, 1)` on the staged list. */
    method RemoveStaged(index: int)
      requires Valid()
      modifies this`stagedPeople
      ensures Valid()
      ensures stagedPeople == SpliceOne(old(stagedPeople), index)
    {
      SpliceKeepsEntries(stagedPeople, index);
      stagedPeople := SpliceOne(stagedPeople, index);
    }

    /**
      `addPeople`: nothing when no name is staged; otherwise one `people` document per
      staged name, after the existing ones, and the staged list is emptied.
     */
    method AddPeople()
      requires peopleService.firestore.Valid()
      modifies this`stagedPeople, peopleService.firestore`people, peopleService.firestore`nextId
      ensures peopleService.firestore.Valid()
      ensures stagedPeople == []
      ensures old(stagedPeople) == [] ==> peopleService.firestore.people == old(peopleService.firestore.people)
      ensures |peopleService.firestore.people| == |old(peopleService.firestore.people)| + |old(stagedPeople)|
      ensures peopleService.firestore.people[..|old(peopleService.firestore.people)|] == old(peopleService.firestore.people)
      ensures Names(peopleService.firestore.people) == Names(old(peopleService.firestore.people)) + old(stagedPeople)
    {
      if |stagedPeople| == 0 {
        return;
      }
      peopleService.AddPeople(stagedPeople);
      stagedPeople := [];
    }
  }
}
