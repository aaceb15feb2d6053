# Dog shelter listing service — a Dafny model

The listing service is a small read-only JSON API over two tables, `dog` and
`breed`. A dog references its breed through `breed_id`. The service has three
endpoints: list dogs, get one dog by id, and list breeds. Beside them is a dog-age
check, written twice with identical bodies and called from nowhere: it accepts
ages in the closed range [0, 20] and raises `ValueError` otherwise.

The model keeps the logic and replaces the web framework and the database:

- `models.dfy` (module `Models`): the `Dog` and `Breed` rows, the adoption
  status as an enum member seen through its symbolic name, and the documented age domain.
- `query.dfy` (module `Query`): the storage library's queries as functions on
  sequences. The inner join `dog JOIN breed ON dog.breed_id = breed.id` yields
  every dog in table order, each paired with its matching breeds in table order.
  Then comes the filter on the dog id and `first()`.
- `app.dfy` (module `App`): the three handlers of `server/app.py` as functions
  from the tables to typed responses, plus that file's copy of the age check.
  The "Dog not found" 404 is an `Err` carrying the error body text and the
  status code.
- `validate_dog_age.dfy` (module `AgeValidator`): the standalone copy of the
  age check.
- `wrappers.dfy` (module `Wrappers`): `Option`, `Result`, `Outcome`, and
  Python's `ValueError` as a value.

The store fixes no row order. So every property about the lists is stated per
element or as a count, never as a sort order.

## Model

| member | source | states |
|---|---|---|
| `Query.RowsOf` | server/app.py:22 | the join rows of one dog are exactly the pairs of that dog with a breed whose id equals its `breed_id` |
| `Query.Join` | server/app.py:18-22 | every joined row pairs a dog of the table with a breed of the table that satisfies the join condition, and every such pair appears; a dog with a dangling breed reference is in no row |
| `Query.DogsWithBreed` | server/app.py:22 | reference for counting: the dogs whose breed exists, and only those |
| `Query.RowsOfUnique` | server/app.py:22 | with unique breed ids a dog joins with one breed if its breed exists and none otherwise |
| `Query.JoinOneRowPerDog` | server/app.py:18-24 | with unique breed ids the join's dog column equals the dogs whose breed exists, in table order: one row per such dog and none for a dangling reference |
| `Query.FirstWithDogId` | server/app.py:49 | `filter(Dog.id == id).first()`: none exactly when no row has that dog id, otherwise a row with that id that no earlier row shares |
| `App.GetDogs` | server/app.py:16-36 | one `{id, name, breed}` per joined row, each built from a dog and the breed it references, with `breed` that breed's name |
| `App.GetDogsListsEveryJoinedDog` | server/app.py:18-34 | every dog whose breed exists is listed with that breed's name |
| `App.GetDogsOnePerDogWithBreed` | server/app.py:18-34 | with unique breed ids the list length equals the number of dogs whose breed exists, and entry k has the id and name of the k-th such dog |
| `App.GetDogsEntryBreed` | server/app.py:18-34 | with unique breed ids, entry k carries the name of a breed that the k-th dog whose breed exists references |
| `App.GetDogsCountsEveryDog` | server/app.py:18-34 | with unique breed ids and every dog's breed present, the list has one entry per dog |
| `Query.DogsWithBreedKeepsAll` | server/app.py:22 | when every dog's breed exists, the join keeps every dog |
| `App.GetDogsEmptyWithoutJoinedDogs` | server/app.py:24-36 | an empty dog table, or one where every breed reference dangles, gives the empty list, not an error |
| `App.GetDog` | server/app.py:38-66 | the 404 "Dog not found" error exactly when no joined row has the requested id; otherwise the requested id, the dog's name, age, description and gender unchanged, the joined breed's name, and the status's symbolic name |
| `App.GetDogFindsTheDog` | server/app.py:41-64 | with unique ids, a dog whose breed exists is returned joined with exactly that breed |
| `App.GetDogDanglingBreedNotFound` | server/app.py:49-53 | with unique dog ids, a dog whose breed does not exist answers 404 "Dog not found" |
| `App.GetDogAgreesWithGetDogs` | server/app.py:16-66 | getting one dog succeeds exactly for the ids the dog list contains, and its id, name and breed form an entry of that list |
| `App.GetBreeds` | server/app.py:68-89 | one `{id, name}` per breed, same length, element k carrying the id and name of breed k and nothing else |
| `App.GetBreedsDeterminesTable` | server/app.py:78-87 | equal responses come from breed tables with the same ids and names in the same order |
| `App.GetBreedsListsEveryBreed` | server/app.py:78-87 | every breed appears in the response and every element is a breed of the table |
| `App.ValidateDogAge` | server/app.py:91-98 | passes exactly when 0 <= age <= 20, and otherwise raises `ValueError("Dog age must be between 0 and 20.")` |
| `App.ValidateDogAgeBoundaries` | server/app.py:97-98 | 0 and 20 pass; -1 and 21 raise the `ValueError` |
| `AgeValidator.ValidateDogAge` | validate_dog_age.py:1-7 | returns normally (`None`) exactly when 0 <= age <= 20, and otherwise raises `ValueError("Dog age must be between 0 and 20.")` |
| `App.ValidatorCopiesAgree` | validate_dog_age.py:6-7 | the two copies of the check give the same outcome and message on every integer |

## Left out

- Framework plumbing: app construction and configuration, database initialisation (server/app.py:7-14), routing, JSON serialisation and process start on port 5100 (server/app.py:102-103). The 404 is modelled only as an error value carrying its body text and status code.
- The storage library and the SQLite file: queries are replaced by functions on sequences. The `models` module is not part of this model, so the members of the status enum are unknown. A status is modelled by its symbolic name only; how it is stored is not modelled.
- Row order: the queries have no `ORDER BY`. The model follows table order, and no property claims a sort order.
- Path coercion of the id: the router's integer converter and which ids it accepts are not modelled; `GetDog` takes any integer.
- Non-integer ages given to the untyped copy in server/app.py: ages are integers only, and Python's float comparison is not modelled.
- Failures of the store, such as an unavailable database, are not modelled.
