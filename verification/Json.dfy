// JSON documents.
module Json {
  datatype Json =
    | Null
    | Bool(flag: bool)
    | Num(number: int)
    | Str(text: string)
    | Arr(items: seq<Json>)
    | Obj(members: map<string, Json>)
  {
    predicate Has(key: string) {
      Obj? && key in members
    }

    // The member, or null.
    function At(key: string): Json {
      if Has(key) then members[key] else Null
    }
  }

  // ------------------------------------------------------------------
  // Reading members: a refusal of the caller's own, or the library's exception when the
  // document is no object or the member has the wrong type

  datatype Reading<+T, +E> = Ok(value: T) | Refused(error: E) | Thrown {
    predicate IsFailure() {
      !Ok?
    }

    function PropagateFailure<U>(): Reading<U, E>
      requires IsFailure()
    {
      match this
      case Refused(e) => Refused(e)
      case Thrown => Thrown
    }

    function Extract(): T
      requires !IsFailure()
    {
      value
    }
  }

  // json::value with a string default
  function StringOr<E>(src: Json, key: string, default: string): Reading<string, E> {
    if !src.Obj? then Thrown
    else if key !in src.members then Ok(default)
    else if src.members[key].Str? then Ok(src.members[key].text)
    else Thrown
  }

  // json::value with a numeric default; a boolean converts to 0 or 1
  function NumberOr<E>(src: Json, key: string, default: int): Reading<int, E> {
    if !src.Obj? then Thrown
    else if key !in src.members then Ok(default)
    else if src.members[key].Num? then Ok(src.members[key].number)
    else if src.members[key].Bool? then Ok(if src.members[key].flag then 1 else 0)
    else Thrown
  }

  function BoolOr<E>(src: Json, key: string, default: bool): Reading<bool, E> {
    if !src.Obj? then Thrown
    else if key !in src.members then Ok(default)
    else if src.members[key].Bool? then Ok(src.members[key].flag)
    else Thrown
  }

  // ------------------------------------------------------------------
  // What a member says, without a reader: its value, or the default when it is not there

  predicate TextIs(src: Json, key: string, value: string, default: string) {
    if src.Has(key) then src.At(key) == Str(value) else value == default
  }

  predicate FlagIs(src: Json, key: string, value: bool, default: bool) {
    if src.Has(key) then src.At(key) == Bool(value) else value == default
  }

  predicate NumberIs(src: Json, key: string, value: int, default: int) {
    if src.Has(key) then src.At(key) == Num(value) || (0 <= value <= 1 && src.At(key) == Bool(value == 1))
    else value == default
  }

  predicate TextOrNone(src: Json, key: string) {
    src.Has(key) ==> src.At(key).Str?
  }
}
