/**
 * The two tables of the store and the adoption-status enum. The `models`
 * module that declares them with the storage library is not part of this
 * model; only the columns the handlers read are kept.
 */
module Models {

  /**
   * A member of the adoption-status enum, seen through its symbolic `name`
   * (what Python's `Enum.name` gives). Which members the enum has, and how
   * a member is stored, are not part of this model.
   */
  datatype Status = Status(name: string)

  /** A row of the `breed` table, with the two columns the handlers read. */
  datatype Breed = Breed(id: int, name: string)

  /** A row of the `dog` table; `breedId` is the foreign key into `breed`. */
  datatype Dog = Dog(
    id: int,
    name: string,
    breedId: int,
    age: int,
    description: string,
    gender: string,
    status: Status)

  /** The documented domain of a dog's age, in years. */
  const MinDogAge: int := 0
  const MaxDogAge: int := 20

  /** An age in the closed range [MinDogAge, MaxDogAge]. */
  predicate IsValidAge(age: int) {
    MinDogAge <= age && age <= MaxDogAge
  }
}
