/** The decoded JSON that SenML records are read from and written to.
    Lexing and printing JSON text belong to an external codec; here a record is
    already a flat object of scalar values. */
module Json {
  import opened Wrappers

  /** A scalar JSON value. JSON has a single number type, modelled as `real`. */
  datatype JVal = JNull | JBool(b: bool) | JNum(n: real) | JStr(s: string)

  /** A decoded JSON object */
  type Object = map<string, JVal>

  /** Why a record does not decode: a consulted key holds a JSON value of the
      wrong type, or holds a string that Python 2's `str()` cannot convert
      because it is not ASCII. */
  datatype DecodeError = TypeMismatch(key: string) | NonAscii(key: string)

  /** Every character is ASCII, so Python 2's `str()` of the string succeeds */
  predicate IsAscii(s: string) {
    forall i :: 0 <= i < |s| ==> s[i] < 128 as char
  }

  /** Python's `dict.get(key)`: a missing key and a key holding null both read as absent. */
  function Get(obj: Object, key: string): (r: Option<JVal>)
    ensures r.None? <==> key !in obj || obj[key].JNull?
    ensures r.Some? ==> key in obj && obj[key] == r.value
  {
    if key in obj && !obj[key].JNull? then Some(obj[key]) else None
  }

  /** Reads an optional text field: absent or null gives None, a string gives
      its contents, anything else is a type mismatch on `key`. */
  function GetString(obj: Object, key: string): (r: Result<Option<string>, DecodeError>)
    ensures r.Failure? <==> Get(obj, key).Some? && !obj[key].JStr?
    ensures r.Failure? ==> r.error == TypeMismatch(key)
    ensures r.Success? ==> (r.value.Some? <==> Get(obj, key).Some?)
    ensures r.Success? && r.value.Some? ==> obj[key] == JStr(r.value.value)
  {
    match Get(obj, key)
    case None => Success(None)
    case Some(j) => if j.JStr? then Success(Some(j.s)) else Failure(TypeMismatch(key))
  }

  /** Reads an optional numeric field, like `GetString` for numbers. */
  function GetNumber(obj: Object, key: string): (r: Result<Option<real>, DecodeError>)
    ensures r.Failure? <==> Get(obj, key).Some? && !obj[key].JNum?
    ensures r.Failure? ==> r.error == TypeMismatch(key)
    ensures r.Success? ==> (r.value.Some? <==> Get(obj, key).Some?)
    ensures r.Success? && r.value.Some? ==> obj[key] == JNum(r.value.value)
  {
    match Get(obj, key)
    case None => Success(None)
    case Some(j) => if j.JNum? then Success(Some(j.n)) else Failure(TypeMismatch(key))
  }

  /** The one-entry object `{key: v}` when `v` is present, `{}` otherwise:
      how the encoders leave absent fields out. */
  function Field(key: string, v: Option<JVal>): (r: Object)
    ensures key in r <==> v.Some?
    ensures r.Keys <= {key}
    ensures v.Some? ==> r[key] == v.value
  {
    if v.Some? then map[key := v.value] else map[]
  }

  /** An optional string as an optional JSON string */
  function StrOpt(s: Option<string>): (r: Option<JVal>)
    ensures r.Some? <==> s.Some?
    ensures s.Some? ==> r.value == JStr(s.value)
  {
    if s.Some? then Some(JStr(s.value)) else None
  }

  /** An optional number as an optional JSON number */
  function NumOpt(x: Option<real>): (r: Option<JVal>)
    ensures r.Some? <==> x.Some?
    ensures x.Some? ==> r.value == JNum(x.value)
  {
    if x.Some? then Some(JNum(x.value)) else None
  }

  /** The entries of `obj` whose keys are in `keys` */
  function Restrict(obj: Object, keys: set<string>): (r: Object)
    ensures r.Keys == obj.Keys * keys
    ensures forall k :: k in r ==> r[k] == obj[k]
  {
    map k | k in obj && k in keys :: obj[k]
  }

  /** Adding entries for other keys leaves `key`'s entry as it was */
  lemma UnionKeeps(a: Object, b: Object, key: string)
    requires key !in b
    ensures Get(a + b, key) == Get(a, key)
    ensures key in a ==> (a + b)[key] == a[key]
  {
  }

  /** `a` and `b` hold the same entry for `key`, or both lack it */
  predicate AgreeOn(a: Object, b: Object, key: string) {
    (key in a <==> key in b) && (key in a ==> a[key] == b[key])
  }

  /** Restricting to a set of keys keeps every entry in the set */
  lemma RestrictAgrees(obj: Object, keys: set<string>, key: string)
    requires key in keys
    ensures AgreeOn(Restrict(obj, keys), obj, key)
  {
  }

  /** Objects drawn from the same keys that agree on each of them are equal */
  lemma AgreeEverywhere(a: Object, b: Object, keys: set<string>)
    requires a.Keys <= keys && b.Keys <= keys
    requires forall k :: k in keys ==> AgreeOn(a, b, k)
    ensures a == b
  {
    assert a.Keys == b.Keys;
  }
}
