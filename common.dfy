/** Small wrappers shared by every module of the model. */
module Common {

  /** A value that may be `null` in the database or in a prop. */
  datatype Option<+T> = None | Some(value: T)

  /** A member of a JSON request body: missing (`undefined`), an explicit `null`, or a value. */
  datatype Field<+T> = Absent | Null | Value(v: T)

  /** JavaScript truthiness of a nullable string: `null` and `""` are falsy. */
  predicate TruthyText(s: Option<string>) {
    s.Some? && s.value != ""
  }

  /** JavaScript truthiness of a nullable number: `null` and `0` are falsy (NaN is not modelled). */
  predicate TruthyNumber(x: Option<real>) {
    x.Some? && x.value != 0.0
  }

  /** Truthiness of a string body member. */
  predicate TruthyTextField(f: Field<string>) {
    f.Value? && f.v != ""
  }

  /** Truthiness of a numeric body member. */
  predicate TruthyNumberField(f: Field<real>) {
    f.Value? && f.v != 0.0
  }

  /** `x || null` on a string body member, as stored by Prisma. */
  function TextOrNull(f: Field<string>): (r: Option<string>)
    ensures r.Some? <==> TruthyTextField(f)
    ensures r.Some? ==> r == Some(f.v)
  {
    if TruthyTextField(f) then Some(f.v) else None
  }

  /** What Prisma stores for a nullable column given a body member: `undefined` and `null` both give `null`. */
  function StoredOrNull<T>(f: Field<T>): (r: Option<T>)
    ensures r.Some? <==> f.Value?
    ensures f.Value? ==> r == Some(f.v)
  {
    match f
    case Value(v) => Some(v)
    case _ => None
  }

  function Min(a: int, b: int): int {
    if a <= b then a else b
  }
}
