/** The standalone copy of the dog-age check (validate_dog_age.py). */
module AgeValidator {
  import opened Wrappers
  import opened Models

  /** The message of the `ValueError` raised for an out-of-range age. */
  const AgeRangeMessage: string := "Dog age must be between 0 and 20."

  /**
   * Returns normally (`Pass`, Python's `None`) for an age in [0, 20] and
   * raises `ValueError` otherwise; both ends of the range are accepted.
   */
  function ValidateDogAge(age: int): (r: Outcome<ValueError>)
    ensures r.Pass? <==> IsValidAge(age)
    ensures r.Fail? ==> r.error == ValueError(AgeRangeMessage)
  {
    if !(0 <= age <= 20) then Fail(ValueError("Dog age must be between 0 and 20.")) else Pass
  }
}
