/**
 * `SortingController`: people with an age, generated at random, sorted by age with
 * selection sort and merge sort, and the benchmark loop of `GET /api/sorting`.
 */
module SortingController {
  import opened Wrappers
  import opened Ordering
  import opened Benchmark
  import Sorts

  /** A generated person. Nothing changes a person after it is created. */
  datatype Person = Person(Name: string, Age: int) {

    /**
     * `IComparable<Person>.CompareTo`: an absent other person compares as smaller
     * (answer 1); otherwise the answer has the sign of the age difference.
     */
    function CompareTo(other: Option<Person>): (r: int)
      ensures other.None? ==> r == 1
      ensures other.Some? ==> -1 <= r <= 1
      ensures other.Some? ==> (r < 0 <==> Age < other.value.Age)
      ensures other.Some? ==> (r == 0 <==> Age == other.value.Age)
    {
      match other
      case None => 1
      case Some(p) => CompareKeys(Age, p.Age)
    }
  }

  /** The sort key: the age. */
  function AgeOf(p: Person): int {
    p.Age
  }

  /** The label of the i-th generated person. */
  function PersonLabel(i: nat): string {
    "Person" + DecimalString(i)
  }

  /**
   * `GenerateRandomPeople(count)`: person i is labelled `Person{i}` and gets the age
   * `random.Next(10, 100)` drawn from the i-th sample.
   */
  function GenerateRandomPeople(count: nat, samples: nat -> nat): (people: seq<Person>)
    ensures |people| == count
    ensures forall i :: 0 <= i < count ==> people[i].Name == PersonLabel(i)
    ensures forall i :: 0 <= i < count ==> people[i].Age == Next(10, 100, samples(i))
    ensures forall i :: 0 <= i < count ==> 10 <= people[i].Age < 100
  {
    var people := seq(count, (i: nat) => Person(PersonLabel(i), Next(10, 100, samples(i))));
    assert forall i :: 0 <= i < count ==> people[i].Age == Next(10, 100, samples(i));
    people
  }

  /** No two generated people share a name. */
  lemma GeneratedNamesDistinct(count: nat, samples: nat -> nat, i: nat, j: nat)
    requires i < j < count
    ensures GenerateRandomPeople(count, samples)[i].Name != GenerateRandomPeople(count, samples)[j].Name
  {
    if PersonLabel(i) == PersonLabel(j) {
      LabelInjective("Person", i, j);
    }
  }

  /** `CompareTo` of two present people is the comparison both sorts make. */
  lemma CompareToIsAgeOrder(p: Person, q: Person)
    ensures p.CompareTo(Some(q)) == CompareKeys(AgeOf(p), AgeOf(q))
  {
  }

  /** `SelectionSort(people)`: sorts the list in place by age. */
  method SelectionSort(people: array<Person>)
    modifies people
    ensures Sorted(people[..], AgeOf)
    ensures multiset(people[..]) == multiset(old(people[..]))
    ensures people.Length <= 1 ==> people[..] == old(people[..])
  {
    Sorts.SelectionSort(people, AgeOf);
  }

  /** `MergeSort(people)`: a new list sorted by age, keeping people of equal age in input order. */
  method MergeSort(people: seq<Person>) returns (r: seq<Person>)
    ensures Sorted(r, AgeOf)
    ensures multiset(r) == multiset(people)
    ensures Stable(people, r, AgeOf)
    ensures |people| <= 1 ==> r == people
  {
    r := Sorts.MergeSort(people, AgeOf);
  }

  /**
   * `GetSortingData`: for each size 0, 1000, ... up to `maxDatasetSize`, generate
   * people, sort one copy with each algorithm and record the two elapsed times and
   * the size. `samples(round, i)` is the i-th random draw of a round and
   * `stopwatch(algorithm, round)` the milliseconds the stopwatch reads.
   */
  method GetSortingData(maxDatasetSize: int, samples: (nat, nat) -> nat, stopwatch: (Algorithm, nat) -> nat)
    returns (selectionSortTimes: seq<nat>, mergeSortTimes: seq<nat>, datasetSizes: seq<int>)
    ensures datasetSizes == DatasetSizes(maxDatasetSize)
    ensures |selectionSortTimes| == |datasetSizes| && |mergeSortTimes| == |datasetSizes|
    ensures forall round :: 0 <= round < |datasetSizes| ==>
              selectionSortTimes[round] == stopwatch(SelectionSortRun, round) &&
              mergeSortTimes[round] == stopwatch(MergeSortRun, round)
  {
    selectionSortTimes, mergeSortTimes, datasetSizes := [], [], [];
    var size := 0;
    while size <= maxDatasetSize
      invariant size == Step * |datasetSizes|
      invariant datasetSizes + SizesFrom(size, maxDatasetSize) == DatasetSizes(maxDatasetSize)
      invariant |selectionSortTimes| == |datasetSizes| && |mergeSortTimes| == |datasetSizes|
      invariant forall round :: 0 <= round < |datasetSizes| ==>
                  selectionSortTimes[round] == stopwatch(SelectionSortRun, round) &&
                  mergeSortTimes[round] == stopwatch(MergeSortRun, round)
      decreases maxDatasetSize - size
    {
      SizesStep(datasetSizes, size, maxDatasetSize);
      var round := |datasetSizes|;
      var people := GenerateRandomPeople(size, i => samples(round, i));

      var copy := new Person[|people|](i requires 0 <= i < |people| => people[i]);
      SelectionSort(copy);
      selectionSortTimes := selectionSortTimes + [stopwatch(SelectionSortRun, round)];

      var sorted := MergeSort(people);
      mergeSortTimes := mergeSortTimes + [stopwatch(MergeSortRun, round)];

      datasetSizes := datasetSizes + [size];
      size := size + Step;
    }
    SizesDone(datasetSizes, size, maxDatasetSize);
  }
}
