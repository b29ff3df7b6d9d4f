/** El::Lang, as far as languages are told apart. */
module LangCodes {

  datatype Lang = Lang(code: nat)

  /** El::Lang::null. */
  const NULL_LANG := Lang(0)
}
