/**
 * The pure part of the CEP lookup service (`src/services/viaCepService.ts`):
 * validating and formatting a postal code, and the early answer the lookup
 * gives for a code without eight digits. The request itself is the parameter
 * `lookup`, which stands for the network answer to an eight-digit code.
 */
module ViaCep {
  import opened Wrappers
  import opened Strings
  import Utils

  datatype ApiError = ApiError(message: string, code: string)

  /** `ApiResponse<T>`: the data if the lookup found any, the error if it failed, the loading flag. */
  datatype ApiResponse<T> = ApiResponse(data: Option<T>, error: Option<ApiError>, loading: bool)

  const InvalidFormatMessage: string := "CEP deve conter 8 dígitos"

  const InvalidFormatCode: string := "INVALID_CEP_FORMAT"

  /** `validateCep`: eight digits once everything else is removed. */
  predicate ValidateCep(cep: string) {
    |Utils.OnlyNumbers(cep)| == 8
  }

  /** `formatCep` of this service. */
  function FormatCep(cep: string): string {
    var clean := Utils.OnlyNumbers(cep);
    if |clean| == 8 then clean[..5] + "-" + clean[5..] else cep
  }

  /** The service's formatter and the one in `utils.ts` agree on every input. */
  lemma FormatCepAgrees(cep: string)
    ensures FormatCep(cep) == Utils.FormatCep(cep)
  {
  }

  /** Eight digits become `ddddd-ddd` holding the same digits; anything else comes back unchanged. */
  lemma FormatCepSpec(cep: string)
    ensures Utils.OnlyNumbers(FormatCep(cep)) == Utils.OnlyNumbers(cep)
    ensures ValidateCep(cep) ==> Utils.CepLayout(FormatCep(cep))
    ensures !ValidateCep(cep) ==> FormatCep(cep) == cep
  {
    Utils.FormatCepSpec(cep);
  }

  /** Formatting does not change whether a code is valid. */
  lemma FormatCepKeepsValidity(cep: string)
    ensures ValidateCep(FormatCep(cep)) == ValidateCep(cep)
  {
    FormatCepSpec(cep);
  }

  /** Every formatted code is valid; an already formatted one is left alone. */
  lemma ValidateCepLayout(cep: string)
    requires Utils.CepLayout(cep)
    ensures ValidateCep(cep) && FormatCep(cep) == cep
  {
    Utils.FormatCepKeepsFormatted(cep);
    Utils.FormatCepSpec(cep);
    assert Utils.OnlyNumbers(Utils.FormatCep(cep)) == Utils.OnlyNumbers(cep);
    assert |Utils.OnlyNumbers(cep)| == 8 by {
      Utils.OnlyNumbersSkip(cep[..5], '-', cep[6..]);
      assert cep == cep[..5] + ['-'] + cep[6..];
      Utils.OnlyNumbersFixesDigits(cep[6..]);
    }
  }

  /**
   * `getAddressByCep`: a code without eight digits gets the format error at
   * once; otherwise the answer is the lookup of the bare digits.
   */
  function GetAddressByCep<T>(cep: string, lookup: string -> ApiResponse<T>): ApiResponse<T> {
    var clean := Utils.OnlyNumbers(cep);
    if |clean| != 8 then ApiResponse(None, Some(ApiError(InvalidFormatMessage, InvalidFormatCode)), false)
    else lookup(clean)
  }

  /**
   * The early answer is an error without data exactly for the invalid codes,
   * a valid code is looked up by its own eight bare digits, and how the code
   * was formatted does not matter.
   */
  lemma GetAddressByCepSpec<T>(cep: string, lookup: string -> ApiResponse<T>)
    ensures !ValidateCep(cep) ==>
      var r := GetAddressByCep(cep, lookup);
      r.data.None? && r.error == Some(ApiError(InvalidFormatMessage, InvalidFormatCode)) && !r.loading
    ensures ValidateCep(cep) ==>
      AllDigits(Utils.OnlyNumbers(cep)) && GetAddressByCep(cep, lookup) == lookup(Utils.OnlyNumbers(cep))
    ensures GetAddressByCep(FormatCep(cep), lookup) == GetAddressByCep(cep, lookup)
  {
    FormatCepSpec(cep);
  }
}
