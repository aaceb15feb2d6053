/**
 * The request handlers of the listing service (server/app.py) over the
 * `dog` and `breed` tables held as sequences, and that file's copy of the
 * dog-age check. Responses are typed records with the fields the JSON
 * objects carry.
 */
module App {
  import opened Wrappers
  import opened Models
  import opened Query
  import AgeValidator

  /** An element of the `GET /api/dogs` array. */
  datatype DogSummary = DogSummary(id: int, name: string, breed: string)

  /** The `GET /api/dogs/<id>` object; `status` is the status's symbolic name. */
  datatype DogDetail = DogDetail(
    id: int,
    name: string,
    breed: string,
    age: int,
    description: string,
    gender: string,
    status: string)

  /** An element of the `GET /api/breeds` array. */
  datatype BreedSummary = BreedSummary(id: int, name: string)

  /** An error response: the `{"error": ...}` body and its HTTP status code. */
  datatype ErrorResponse = ErrorResponse(error: string, statusCode: int)

  const NotFoundStatus: int := 404
  const DogNotFoundMessage: string := "Dog not found"

  /** The response `get_dog` gives when no joined row has the requested id. */
  const DogNotFound: ErrorResponse := ErrorResponse(DogNotFoundMessage, NotFoundStatus)

  /**
   * `GET /api/dogs`: one `{id, name, breed}` per row of the dog-breed join,
   * each built from a dog and the breed it references.
   */
  function GetDogs(dogs: seq<Dog>, breeds: seq<Breed>): (r: seq<DogSummary>)
    ensures |r| == |Join(dogs, breeds)|
    ensures forall k :: 0 <= k < |r| ==>
      exists d, b :: d in dogs && b in breeds && Joins(d, b) && r[k] == DogSummary(d.id, d.name, b.name)
  {
    var rows := Join(dogs, breeds);
    var listed := seq(|rows|, k requires 0 <= k < |rows| => DogSummary(rows[k].dog.id, rows[k].dog.name, rows[k].breed.name));
    assert forall k :: 0 <= k < |listed| ==>
      rows[k] in rows && listed[k] == DogSummary(rows[k].dog.id, rows[k].dog.name, rows[k].breed.name);
    listed
  }

  /** Every dog whose breed exists is listed, under the name of that breed. */
  lemma GetDogsListsEveryJoinedDog(dogs: seq<Dog>, breeds: seq<Breed>, d: Dog, b: Breed)
    requires d in dogs && b in breeds && Joins(d, b)
    ensures DogSummary(d.id, d.name, b.name) in GetDogs(dogs, breeds)
  {
    var rows := Join(dogs, breeds);
    var k :| 0 <= k < |rows| && rows[k] == Row(d, b);
    assert GetDogs(dogs, breeds)[k] == DogSummary(d.id, d.name, b.name);
  }

  /**
   * With unique breed ids, `GET /api/dogs` lists exactly one entry per dog
   * whose breed exists, carrying that dog's id and name, and nothing for a
   * dog with a dangling breed reference.
   */
  lemma {:induction false} GetDogsOnePerDogWithBreed(dogs: seq<Dog>, breeds: seq<Breed>)
    requires UniqueBreedIds(breeds)
    ensures var listed, owners := GetDogs(dogs, breeds), DogsWithBreed(dogs, breeds);
      |listed| == |owners| &&
      forall k :: 0 <= k < |listed| ==> listed[k].id == owners[k].id && listed[k].name == owners[k].name
  {
    JoinOneRowPerDog(dogs, breeds);
  }

  /**
   * With unique breed ids, entry k of `GET /api/dogs` carries the name of a
   * breed that the k-th dog whose breed exists references.
   */
  lemma {:induction false} GetDogsEntryBreed(dogs: seq<Dog>, breeds: seq<Breed>, k: nat)
    requires UniqueBreedIds(breeds)
    requires k < |DogsWithBreed(dogs, breeds)|
    ensures k < |GetDogs(dogs, breeds)|
    ensures exists b :: b in breeds && Joins(DogsWithBreed(dogs, breeds)[k], b) && GetDogs(dogs, breeds)[k].breed == b.name
  {
    JoinOneRowPerDog(dogs, breeds);
    var rows := Join(dogs, breeds);
    assert rows[k] in rows;
    assert DogsOf(rows)[k] == rows[k].dog;
    assert GetDogs(dogs, breeds)[k].breed == rows[k].breed.name;
  }

  /**
   * With unique breed ids and every dog's breed present, `GET /api/dogs`
   * lists as many entries as there are dogs.
   */
  lemma {:induction false} GetDogsCountsEveryDog(dogs: seq<Dog>, breeds: seq<Breed>)
    requires UniqueBreedIds(breeds)
    requires forall d :: d in dogs ==> HasBreed(d, breeds)
    ensures |GetDogs(dogs, breeds)| == |dogs|
  {
    JoinOneRowPerDog(dogs, breeds);
    DogsWithBreedKeepsAll(dogs, breeds);
  }

  /** An empty dog table, or one whose every breed reference dangles, lists nothing (and is no error). */
  lemma GetDogsEmptyWithoutJoinedDogs(dogs: seq<Dog>, breeds: seq<Breed>)
    requires forall d :: d in dogs ==> !HasBreed(d, breeds)
    ensures GetDogs(dogs, breeds) == []
  {
    var rows := Join(dogs, breeds);
    if rows != [] {
      assert rows[0] in rows;
    }
  }

  /**
   * `GET /api/dogs/<id>`: the first joined row whose dog has that id,
   * projected to seven fields with the status rendered by its name; the
   * 404 "Dog not found" error when no joined row has that id, which
   * includes a dog whose breed does not exist.
   */
  function GetDog(dogs: seq<Dog>, breeds: seq<Breed>, id: int): (r: Result<DogDetail, ErrorResponse>)
    ensures r.Err? <==> forall d, b :: d in dogs && b in breeds && Joins(d, b) ==> d.id != id
    ensures r.Err? ==> r.error == ErrorResponse("Dog not found", 404)
    ensures r.Ok? ==>
      exists d, b :: d in dogs && b in breeds && Joins(d, b) && d.id == id &&
        r.value == DogDetail(id, d.name, b.name, d.age, d.description, d.gender, d.status.name)
  {
    var row := FirstWithDogId(Join(dogs, breeds), id);
    if row.None? then Err(DogNotFound)
    else
      var found := row.value;
      Ok(DogDetail(found.dog.id, found.dog.name, found.breed.name, found.dog.age,
                   found.dog.description, found.dog.gender, found.dog.status.name))
  }

  /**
   * With unique dog and breed ids, the dog with the requested id is found
   * exactly when its breed exists, and the result is that dog joined with
   * that breed.
   */
  lemma GetDogFindsTheDog(dogs: seq<Dog>, breeds: seq<Breed>, i: nat, j: nat)
    requires UniqueDogIds(dogs) && UniqueBreedIds(breeds)
    requires i < |dogs| && j < |breeds| && Joins(dogs[i], breeds[j])
    ensures GetDog(dogs, breeds, dogs[i].id) ==
      Ok(DogDetail(dogs[i].id, dogs[i].name, breeds[j].name, dogs[i].age,
                   dogs[i].description, dogs[i].gender, dogs[i].status.name))
  {

  }

  /**
   * With unique dog ids, asking for a dog whose breed reference dangles
   * answers 404 "Dog not found", although the dog row exists.
   */
  lemma GetDogDanglingBreedNotFound(dogs: seq<Dog>, breeds: seq<Breed>, i: nat)
    requires UniqueDogIds(dogs)
    requires i < |dogs| && !HasBreed(dogs[i], breeds)
    ensures GetDog(dogs, breeds, dogs[i].id) == Err(DogNotFound)
  {

  }

  /** `GET /api/dogs/<id>` succeeds exactly for the ids `GET /api/dogs` lists, with the same name and breed. */
  lemma GetDogAgreesWithGetDogs(dogs: seq<Dog>, breeds: seq<Breed>, id: int)
    ensures GetDog(dogs, breeds, id).Ok? <==> exists s :: s in GetDogs(dogs, breeds) && s.id == id
    ensures GetDog(dogs, breeds, id).Ok? ==>
      var v := GetDog(dogs, breeds, id).value;
      DogSummary(v.id, v.name, v.breed) in GetDogs(dogs, breeds)
  {
    var r := GetDog(dogs, breeds, id);
    var listed := GetDogs(dogs, breeds);
    if r.Ok? {
      var d, b :| d in dogs && b in breeds && Joins(d, b) && d.id == id &&
        r.value == DogDetail(id, d.name, b.name, d.age, d.description, d.gender, d.status.name);
      GetDogsListsEveryJoinedDog(dogs, breeds, d, b);
    }
    if s :| s in listed && s.id == id {
      var k :| 0 <= k < |listed| && listed[k] == s;
      var d, b :| d in dogs && b in breeds && Joins(d, b) && listed[k] == DogSummary(d.id, d.name, b.name);
      assert d.id == id;
    }
  }

  /**
   * `GET /api/breeds`: one `{id, name}` per breed, in table order, so the
   * ids and names of the table can be read back from the response.
   */
  function GetBreeds(breeds: seq<Breed>): (r: seq<BreedSummary>)
    ensures |r| == |breeds|
    ensures forall k :: 0 <= k < |r| ==> Breed(r[k].id, r[k].name) == breeds[k]
  {
    seq(|breeds|, k requires 0 <= k < |breeds| => BreedSummary(breeds[k].id, breeds[k].name))
  }

  /** Two breed tables with the same `GET /api/breeds` response have the same ids and names in the same order. */
  lemma GetBreedsDeterminesTable(breeds: seq<Breed>, breeds': seq<Breed>)
    requires GetBreeds(breeds) == GetBreeds(breeds')
    ensures breeds == breeds'
  {

  }

  /** Every breed appears in the response, and every element comes from a breed. */
  lemma GetBreedsListsEveryBreed(breeds: seq<Breed>)
    ensures forall b :: b in breeds ==> BreedSummary(b.id, b.name) in GetBreeds(breeds)
    ensures forall s :: s in GetBreeds(breeds) ==> Breed(s.id, s.name) in breeds
  {

  }

  /** The message of the `ValueError` raised for an out-of-range age. */
  const AgeRangeMessage: string := "Dog age must be between 0 and 20."

  /**
   * server/app.py's copy of the dog-age check: returns normally for an age
   * in [0, 20] and raises `ValueError` otherwise; both ends are accepted.
   */
  function ValidateDogAge(age: int): (r: Outcome<ValueError>)
    ensures r.Pass? <==> IsValidAge(age)
    ensures r.Fail? ==> r.error == ValueError(AgeRangeMessage)
  {
    if !(0 <= age <= 20) then Fail(ValueError("Dog age must be between 0 and 20.")) else Pass
  }

  /** The boundary cases: 0 and 20 pass, -1 and 21 raise. */
  lemma ValidateDogAgeBoundaries()
    ensures ValidateDogAge(0) == Pass && ValidateDogAge(20) == Pass
    ensures ValidateDogAge(-1) == Fail(ValueError("Dog age must be between 0 and 20."))
    ensures ValidateDogAge(21) == Fail(ValueError("Dog age must be between 0 and 20."))
  {
  }

  /** The two copies of the check accept, reject and report identically on every integer. */
  lemma ValidatorCopiesAgree(age: int)
    ensures ValidateDogAge(age) == AgeValidator.ValidateDogAge(age)
  {
  }
}
