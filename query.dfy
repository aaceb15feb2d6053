/**
 * The relational queries of the handlers, over tables held as sequences:
 * `dog JOIN breed ON dog.breed_id = breed.id`, a filter on the dog id and
 * taking the first row. Row order follows the table sequences: every dog in
 * table order, each with its matching breeds in table order. The store
 * itself fixes no order, so the properties below are per-row and counting
 * facts.
 */
module Query {
  import opened Wrappers
  import opened Models

  /** One row of the inner join. */
  datatype Row = Row(dog: Dog, breed: Breed)

  /** The join condition `Dog.breed_id == Breed.id`. */
  predicate Joins(d: Dog, b: Breed) {
    d.breedId == b.id
  }

  /** `d` references a breed that exists in `breeds`. */
  predicate HasBreed(d: Dog, breeds: seq<Breed>) {
    exists b :: b in breeds && Joins(d, b)
  }

  /** No two breeds share an id (the primary key of `breed`). */
  predicate UniqueBreedIds(breeds: seq<Breed>) {
    forall i, j :: 0 <= i < j < |breeds| ==> breeds[i].id != breeds[j].id
  }

  /** No two dogs share an id (the primary key of `dog`). */
  predicate UniqueDogIds(dogs: seq<Dog>) {
    forall i, j :: 0 <= i < j < |dogs| ==> dogs[i].id != dogs[j].id
  }

  /** The join rows contributed by one dog: one per matching breed. */
  function RowsOf(d: Dog, breeds: seq<Breed>): (r: seq<Row>)
    ensures forall row :: row in r ==> row.dog == d && row.breed in breeds && Joins(d, row.breed)
    ensures forall b :: b in breeds && Joins(d, b) ==> Row(d, b) in r
  {
    if breeds == [] then []
    else (if Joins(d, breeds[0]) then [Row(d, breeds[0])] else []) + RowsOf(d, breeds[1..])
  }

  /**
   * The inner join of `dogs` with `breeds`: exactly the pairs that satisfy the
   * join condition, so a dog whose breed does not exist contributes no row.
   */
  function Join(dogs: seq<Dog>, breeds: seq<Breed>): (r: seq<Row>)
    ensures forall row :: row in r ==> row.dog in dogs && row.breed in breeds && Joins(row.dog, row.breed)
    ensures forall d, b :: d in dogs && b in breeds && Joins(d, b) ==> Row(d, b) in r
  {
    if dogs == [] then [] else RowsOf(dogs[0], breeds) + Join(dogs[1..], breeds)
  }

  /** The dogs whose breed exists, in table order: the reference for counting join rows. */
  function DogsWithBreed(dogs: seq<Dog>, breeds: seq<Breed>): (r: seq<Dog>)
    ensures forall d :: d in r <==> d in dogs && HasBreed(d, breeds)
  {
    if dogs == [] then []
    else (if HasBreed(dogs[0], breeds) then [dogs[0]] else []) + DogsWithBreed(dogs[1..], breeds)
  }

  /** When every dog's breed exists, no dog is left out. */
  lemma {:induction false} DogsWithBreedKeepsAll(dogs: seq<Dog>, breeds: seq<Breed>)
    requires forall d :: d in dogs ==> HasBreed(d, breeds)
    ensures DogsWithBreed(dogs, breeds) == dogs
  {
    if dogs != [] {
      assert dogs[0] in dogs;
      assert forall d :: d in dogs[1..] ==> d in dogs;
      DogsWithBreedKeepsAll(dogs[1..], breeds);
      assert [dogs[0]] + dogs[1..] == dogs;
    }
  }

  /** With unique breed ids a dog joins with at most one breed: one row if its breed exists, none otherwise. */
  lemma {:induction false} RowsOfUnique(d: Dog, breeds: seq<Breed>)
    requires UniqueBreedIds(breeds)
    ensures |RowsOf(d, breeds)| == if HasBreed(d, breeds) then 1 else 0
    ensures HasBreed(d, breeds) ==> RowsOf(d, breeds)[0].dog == d
  {
    if breeds != [] {
      var rest := breeds[1..];
      assert UniqueBreedIds(rest) by {
        forall i, j | 0 <= i < j < |rest| ensures rest[i].id != rest[j].id {
          assert rest[i] == breeds[i + 1] && rest[j] == breeds[j + 1];
        }
      }
      RowsOfUnique(d, rest);
      if Joins(d, breeds[0]) {
        assert !HasBreed(d, rest) by {
          forall b | b in rest ensures !Joins(d, b) {
            var k :| 0 <= k < |rest| && rest[k] == b;
            assert breeds[k + 1] == b;
          }
        }
      } else {
        assert HasBreed(d, breeds) ==> HasBreed(d, rest) by {
          if HasBreed(d, breeds) {
            var b :| b in breeds && Joins(d, b);
            assert b != breeds[0];
            assert b in rest;
          }
        }
        assert HasBreed(d, rest) ==> HasBreed(d, breeds) by {
          if HasBreed(d, rest) {
            var b :| b in rest && Joins(d, b);
            assert b in breeds;
          }
        }
      }
    }
  }

  /** The dog column of a list of join rows. */
  function DogsOf(rows: seq<Row>): (r: seq<Dog>)
    ensures |r| == |rows| && forall k :: 0 <= k < |rows| ==> r[k] == rows[k].dog
  {
    if rows == [] then [] else [rows[0].dog] + DogsOf(rows[1..])
  }

  lemma DogsOfAppend(a: seq<Row>, b: seq<Row>)
    ensures DogsOf(a + b) == DogsOf(a) + DogsOf(b)
  {
  }

  /**
   * With unique breed ids the join has exactly one row per dog whose breed
   * exists: its dog column is those dogs, in table order.
   */
  lemma {:induction false} JoinOneRowPerDog(dogs: seq<Dog>, breeds: seq<Breed>)
    requires UniqueBreedIds(breeds)
    ensures DogsOf(Join(dogs, breeds)) == DogsWithBreed(dogs, breeds)
  {
    if dogs != [] {
      JoinOneRowPerDog(dogs[1..], breeds);
      RowsOfUnique(dogs[0], breeds);
      var head := RowsOf(dogs[0], breeds);
      DogsOfAppend(head, Join(dogs[1..], breeds));
      assert DogsOf(head) == if HasBreed(dogs[0], breeds) then [dogs[0]] else [];
    }
  }

  /** The first row whose dog has id `id` (`.filter(Dog.id == id).first()`). */
  function FirstWithDogId(rows: seq<Row>, id: int): (r: Option<Row>)
    ensures r.None? <==> forall row :: row in rows ==> row.dog.id != id
    ensures r.Some? ==> r.value in rows && r.value.dog.id == id
    ensures r.Some? ==>
      exists i :: 0 <= i < |rows| && rows[i] == r.value && forall k :: 0 <= k < i ==> rows[k].dog.id != id
  {
    if rows == [] then None
    else if rows[0].dog.id == id then Some(rows[0])
    else FirstWithDogId(rows[1..], id)
  }
}
