/** The dynamically typed values that raw and extracted fields hold. */
module Values {

  /** `Composite` stands for nested JSON values, which the field mapping passes on without looking inside. */
  datatype Val =
    | Str(s: string)
    | Int(n: int)
    | Float(r: real)
    | Bool(b: bool)
    | Null
    | Composite(repr: string)

  function Texts(m: map<string, string>): map<string, Val> {
    map k | k in m :: Str(m[k])
  }
}
