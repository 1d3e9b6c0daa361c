/** One SenML record (a `SenMLMeasurement`): decoding it from a JSON object,
    decoding the base fields of a JSON object, encoding it back, and resolving
    it against a base record (section 4.6 of RFC 8428, "resolved records"). */
module SenMLMeasurement {
  import opened Wrappers
  import opened Json

  /** A record's value, tagged by the key it travels under:
      `v` (number), `vb` (boolean), `vs` (text) or `vd` (opaque data). */
  datatype Value = Num(x: real) | Bool(b: bool) | Text(s: string) | Opaque(d: string)

  /** A record; every field may be absent. */
  datatype Measurement = Measurement(
    name: Option<string>,
    time: Option<real>,
    unit: Option<string>,
    value: Option<Value>,
    sum: Option<real>)

  /** The record with every field absent */
  const Empty: Measurement := Measurement(None, None, None, None, None)

  /** The value keys, in the order decoding consults them */
  const ValueKeys: seq<string> := ["v", "vs", "vb", "vd"]

  /** The four value keys, spelled out */
  lemma ValueKeysSpelled()
    ensures ValueKeys[0] == "v" && ValueKeys[1] == "vs" && ValueKeys[2] == "vb" && ValueKeys[3] == "vd"
  {
  }

  /** Every key a regular record is read from */
  const RecordKeys: set<string> := {"n", "t", "u", "s", "v", "vs", "vb", "vd"}

  /** The base-field keys, bn/bt/bu/bv (section 4.1 of RFC 8428) */
  const BaseKeys: set<string> := {"bn", "bt", "bu", "bv"}

  /** The key a value is written under */
  function KeyOf(v: Value): string {
    match v
    case Num(_) => "v"
    case Text(_) => "vs"
    case Bool(_) => "vb"
    case Opaque(_) => "vd"
  }

  /** Position of a value's key in the decoding precedence */
  function Rank(v: Value): (i: nat)
    ensures i < |ValueKeys| && ValueKeys[i] == KeyOf(v)
  {
    match v
    case Num(_) => 0
    case Text(_) => 1
    case Bool(_) => 2
    case Opaque(_) => 3
  }

  /** The JSON value a value is written as; text and opaque data are both JSON strings. */
  function Payload(v: Value): JVal {
    match v
    case Num(x) => JNum(x)
    case Bool(b) => JBool(b)
    case Text(s) => JStr(s)
    case Opaque(d) => JStr(d)
  }

  /** The JSON type each known key carries */
  predicate HasType(key: string, j: JVal) {
    if key in {"n", "u", "vs", "vd", "bn", "bu"} then j.JStr?
    else if key in {"t", "s", "v", "bt", "bv"} then j.JNum?
    else if key == "vb" then j.JBool?
    else false
  }

  /** Whether `obj` offers a value under `key`. A null `v` reads as missing
      (it is read with `dict.get`); `vs`, `vb` and `vd` only need to be present (`key in data`). */
  predicate Supplies(obj: Object, key: string) {
    if key == "v" then Get(obj, key).Some? else key in obj
  }

  /** No value key ranked before `i` is supplied */
  predicate NoneBefore(obj: Object, i: nat) {
    forall j :: 0 <= j < i && j < |ValueKeys| ==> !Supplies(obj, ValueKeys[j])
  }

  /** An optional field is absent, null, or of its key's type */
  predicate FieldOk(obj: Object, key: string) {
    Get(obj, key).None? || HasType(key, obj[key])
  }

  /** `j` decodes as the value under `key`: it has the key's type, and opaque
      data (`vd`, converted with Python 2's `str()`) is ASCII. */
  predicate ValueDecodes(key: string, j: JVal) {
    HasType(key, j) && (key == "vd" && j.JStr? ==> IsAscii(j.s))
  }

  /** The value key that decoding picks, if any, holds a value that decodes */
  predicate ValueOk(obj: Object) {
    forall i :: 0 <= i < |ValueKeys| && Supplies(obj, ValueKeys[i]) && NoneBefore(obj, i) ==>
      ValueDecodes(ValueKeys[i], obj[ValueKeys[i]])
  }

  /** Every key a regular record is decoded from holds a value of the right
      type, and opaque data, if picked, is ASCII */
  predicate Decodable(obj: Object) {
    FieldOk(obj, "n") && FieldOk(obj, "t") && FieldOk(obj, "u") && FieldOk(obj, "s") && ValueOk(obj)
  }

  /** `x` is what `obj` holds as text under `key` (absent when the key is missing or null) */
  predicate TextFrom(obj: Object, key: string, x: Option<string>) {
    (x.Some? <==> Get(obj, key).Some?) && (x.Some? ==> obj[key] == JStr(x.value))
  }

  /** `x` is what `obj` holds as a number under `key` (absent when the key is missing or null) */
  predicate NumFrom(obj: Object, key: string, x: Option<real>) {
    (x.Some? <==> Get(obj, key).Some?) && (x.Some? ==> obj[key] == JNum(x.value))
  }

  /** The value of a regular record: `v` if present and not null, else `vs`
      (text), else `vb` (boolean), else `vd` (opaque), else absent. Opaque
      data goes through Python 2's `str()`, which rejects non-ASCII text. */
  function ValueFromJson(obj: Object): (r: Result<Option<Value>, DecodeError>)
    ensures r.Success? <==> ValueOk(obj)
    ensures r.Success? && r.value.Some? ==>
      && Supplies(obj, KeyOf(r.value.value))
      && NoneBefore(obj, Rank(r.value.value))
      && obj[KeyOf(r.value.value)] == Payload(r.value.value)
    ensures r == Success(None) <==> NoneBefore(obj, |ValueKeys|)
    ensures r.Failure? ==> r.error.key in ValueKeys
    ensures r == Failure(NonAscii("vd")) <==>
      NoneBefore(obj, 3) && "vd" in obj && obj["vd"].JStr? && !IsAscii(obj["vd"].s)
  {
    ValueKeysSpelled();
    var v :- GetNumber(obj, "v");
    if v.Some? then Success(Some(Num(v.value)))
    else if "vs" in obj then
      (if obj["vs"].JStr? then Success(Some(Text(obj["vs"].s))) else Failure(TypeMismatch("vs")))
    else if "vb" in obj then
      (if obj["vb"].JBool? then Success(Some(Bool(obj["vb"].b))) else Failure(TypeMismatch("vb")))
    else if "vd" in obj then
      (if !obj["vd"].JStr? then Failure(TypeMismatch("vd"))
       else if !IsAscii(obj["vd"].s) then Failure(NonAscii("vd"))
       else Success(Some(Opaque(obj["vd"].s))))
    else Success(None)
  }

  /** Decodes a regular record (`SenMLMeasurement.from_json`). Base fields are not read. */
  function FromJson(obj: Object): (r: Result<Measurement, DecodeError>)
    ensures r.Success? <==> Decodable(obj)
    ensures r.Success? ==>
      && TextFrom(obj, "n", r.value.name)
      && NumFrom(obj, "t", r.value.time)
      && TextFrom(obj, "u", r.value.unit)
      && NumFrom(obj, "s", r.value.sum)
      && ValueFromJson(obj) == Success(r.value.value)
    ensures r.Failure? ==> r.error.key in RecordKeys
  {
    var name :- GetString(obj, "n");
    var time :- GetNumber(obj, "t");
    var unit :- GetString(obj, "u");
    var value :- ValueFromJson(obj);
    var sum :- GetNumber(obj, "s");
    Success(Measurement(name, time, unit, value, sum))
  }

  /** A record as a base can hold it: no sum, and a value that is numeric if present */
  predicate IsBase(m: Measurement) {
    m.sum.None? && (m.value.None? || m.value.value.Num?)
  }

  /** Decodes the base fields of a record (`SenMLMeasurement.base_from_json`):
      `bn`, `bt`, `bu` and `bv` become name, time, unit and a numeric value. */
  function BaseFromJson(obj: Object): (r: Result<Measurement, DecodeError>)
    ensures r.Success? <==> FieldOk(obj, "bn") && FieldOk(obj, "bt") && FieldOk(obj, "bu") && FieldOk(obj, "bv")
    ensures r.Success? ==>
      && IsBase(r.value)
      && TextFrom(obj, "bn", r.value.name)
      && NumFrom(obj, "bt", r.value.time)
      && TextFrom(obj, "bu", r.value.unit)
      && (r.value.value.Some? <==> Get(obj, "bv").Some?)
      && (r.value.value.Some? ==> obj["bv"] == Payload(r.value.value.value))
    ensures r.Failure? ==> r.error.key in BaseKeys
  {
    var name :- GetString(obj, "bn");
    var time :- GetNumber(obj, "bt");
    var unit :- GetString(obj, "bu");
    var value :- GetNumber(obj, "bv");
    Success(Measurement(name, time, unit, if value.Some? then Some(Num(value.value)) else None, None))
  }

  /** The objects `ToJson` produces: only record keys, each of its type, never
      null, and at most one value key. */
  predicate Canonical(obj: Object) {
    && obj.Keys <= RecordKeys
    && (forall k :: k in obj ==> HasType(k, obj[k]))
    && (forall i, j :: 0 <= i < j < |ValueKeys| && ValueKeys[i] in obj ==> ValueKeys[j] !in obj)
  }

  /** The value entry of an encoded record: `{KeyOf(v): Payload(v)}`, or nothing */
  function ValueField(v: Option<Value>): (r: Object)
    ensures forall i :: 0 <= i < |ValueKeys| ==> (ValueKeys[i] in r <==> v.Some? && ValueKeys[i] == KeyOf(v.value))
    ensures r.Keys <= RecordKeys
    ensures "n" !in r && "t" !in r && "u" !in r && "s" !in r
    ensures v.Some? ==> KeyOf(v.value) in r && r[KeyOf(v.value)] == Payload(v.value)
  {
    if v.Some? then map[KeyOf(v.value) := Payload(v.value)] else map[]
  }

  /** Encodes a record (`SenMLMeasurement.to_json`), emitting only its present fields. */
  function ToJson(m: Measurement): (r: Object)
    ensures Canonical(r)
    ensures TextFrom(r, "n", m.name) && NumFrom(r, "t", m.time)
    ensures TextFrom(r, "u", m.unit) && NumFrom(r, "s", m.sum)
    ensures forall i :: 0 <= i < |ValueKeys| ==>
      (ValueKeys[i] in r <==> m.value.Some? && ValueKeys[i] == KeyOf(m.value.value))
    ensures m.value.Some? ==> KeyOf(m.value.value) in r && r[KeyOf(m.value.value)] == Payload(m.value.value)
  {
    var scalars := ScalarFields(m);
    var value := ValueField(m.value);
    UnionKeeps(scalars, value, "n");
    UnionKeeps(scalars, value, "t");
    UnionKeeps(scalars, value, "u");
    UnionKeeps(scalars, value, "s");
    CanonicalUnion(scalars, m.value);
    scalars + value
  }

  /** Scalar entries plus one value entry form a canonical object */
  lemma CanonicalUnion(a: Object, v: Option<Value>)
    requires a.Keys <= {"n", "t", "u", "s"}
    requires forall k :: k in a ==> HasType(k, a[k])
    ensures Canonical(a + ValueField(v))
  {
    var b := ValueField(v);
    var r := a + b;
    if v.Some? {
      assert b.Keys == {KeyOf(v.value)};
      assert HasType(KeyOf(v.value), Payload(v.value));
    }
    forall k | k in r
      ensures HasType(k, r[k])
    {
      if k in b {
        assert r[k] == b[k];
      } else {
        assert r[k] == a[k];
      }
    }
  }

  /** The name, time, unit and sum entries of an encoded record */
  function ScalarFields(m: Measurement): (r: Object)
    ensures r.Keys <= {"n", "t", "u", "s"}
    ensures forall k :: k in r ==> HasType(k, r[k])
    ensures TextFrom(r, "n", m.name) && NumFrom(r, "t", m.time)
    ensures TextFrom(r, "u", m.unit) && NumFrom(r, "s", m.sum)
  {
    Field("n", StrOpt(m.name)) + Field("t", NumOpt(m.time)) + Field("u", StrOpt(m.unit))
      + Field("s", NumOpt(m.sum))
  }

  /** A field recorded by `TextFrom` reads back through `GetString` */
  lemma ReadText(obj: Object, key: string, x: Option<string>)
    requires TextFrom(obj, key, x)
    ensures GetString(obj, key) == Success(x)
  {
  }

  /** A field recorded by `NumFrom` reads back through `GetNumber` */
  lemma ReadNum(obj: Object, key: string, x: Option<real>)
    requires NumFrom(obj, key, x)
    ensures GetNumber(obj, key) == Success(x)
  {
  }

  /** A record whose value, if opaque, is ASCII: the records whose encoding
      decodes again, since `str()` rejects other opaque data */
  predicate Storable(m: Measurement) {
    m.value.None? || !m.value.value.Opaque? || IsAscii(m.value.value.d)
  }

  /** The value key an encoded record carries decodes to the value it was
      written from, unless it is non-ASCII opaque data */
  lemma ReadValue(m: Measurement)
    ensures ValueFromJson(ToJson(m)) == if Storable(m) then Success(m.value) else Failure(NonAscii("vd"))
  {
    var obj := ToJson(m);
    ValueKeysSpelled();
    match m.value
    case None =>
      assert "v" !in obj && "vs" !in obj && "vb" !in obj && "vd" !in obj;
    case Some(Num(x)) =>
      assert obj["v"] == JNum(x);
    case Some(Text(t)) =>
      assert "v" !in obj && obj["vs"] == JStr(t);
    case Some(Bool(b)) =>
      assert "v" !in obj && "vs" !in obj && obj["vb"] == JBool(b);
    case Some(Opaque(d)) =>
      assert "v" !in obj && "vs" !in obj && "vb" !in obj && obj["vd"] == JStr(d);
  }

  /** Decoding an encoded record gives the record back: every field, with
      numbers as reals and all four value tags. The one exception is opaque
      data that is not ASCII, which the decoder's `str()` rejects. */
  lemma RoundTrip(m: Measurement)
    ensures FromJson(ToJson(m)) == if Storable(m) then Success(m) else Failure(NonAscii("vd"))
  {
    var obj := ToJson(m);
    ReadText(obj, "n", m.name);
    ReadNum(obj, "t", m.time);
    ReadText(obj, "u", m.unit);
    ReadValue(m);
    ReadNum(obj, "s", m.sum);
  }

  /** `obj` holds no opaque data that Python 2's `str()` rejects */
  predicate AsciiData(obj: Object) {
    !("vd" in obj && obj["vd"].JStr? && !IsAscii(obj["vd"].s))
  }

  /** A canonical object whose opaque data is ASCII decodes */
  lemma CanonicalDecodable(obj: Object)
    requires Canonical(obj)
    requires AsciiData(obj)
    ensures Decodable(obj)
  {
    ValueKeysSpelled();
  }

  /** A canonical object with non-ASCII opaque data fails on `vd` */
  lemma CanonicalNonAscii(obj: Object)
    requires Canonical(obj)
    requires !AsciiData(obj)
    ensures FromJson(obj) == Failure(NonAscii("vd"))
  {
    ValueKeysSpelled();
    assert "v" !in obj && "vs" !in obj && "vb" !in obj;
  }

  /** Two null-free objects that record the same text or number under `key` agree on it */
  lemma SameField(a: Object, b: Object, key: string)
    requires key in a ==> !a[key].JNull?
    requires key in b ==> !b[key].JNull?
    requires Get(a, key) == Get(b, key)
    ensures AgreeOn(a, b, key)
  {
  }

  /** A canonical object and the encoding of its decoded value agree on every value key */
  lemma ValueKeysAgree(obj: Object, v: Option<Value>)
    requires Canonical(obj)
    requires ValueFromJson(obj) == Success(v)
    ensures forall i :: 0 <= i < |ValueKeys| ==> AgreeOn(ValueField(v), obj, ValueKeys[i])
  {
    ValueKeysSpelled();
    var r := ValueField(v);
    if v.Some? {
      var k := Rank(v.value);
      assert ValueKeys[k] in obj;
      forall i | 0 <= i < |ValueKeys|
        ensures AgreeOn(r, obj, ValueKeys[i])
      {
        if i < k {
          assert !Supplies(obj, ValueKeys[i]);
        } else if i > k {
          assert ValueKeys[i] !in obj;
        }
      }
    } else {
      assert NoneBefore(obj, |ValueKeys|);
      forall i | 0 <= i < |ValueKeys|
        ensures AgreeOn(r, obj, ValueKeys[i])
      {
        assert !Supplies(obj, ValueKeys[i]);
      }
    }
  }

  /** A canonical object decodes exactly when its opaque data is ASCII, and
      encoding the decoded record gives the object back; so `ToJson` is a
      bijection between storable records and canonical objects with ASCII
      opaque data. */
  lemma EncodeDecode(obj: Object)
    requires Canonical(obj)
    ensures FromJson(obj).Success? <==> AsciiData(obj)
    ensures FromJson(obj).Success? ==> ToJson(FromJson(obj).value) == obj
  {
    if !AsciiData(obj) {
      CanonicalNonAscii(obj);
      return;
    }
    CanonicalDecodable(obj);
    var m := FromJson(obj).value;
    var r := ToJson(m);
    assert Get(r, "n") == Get(obj, "n") && Get(r, "t") == Get(obj, "t");
    assert Get(r, "u") == Get(obj, "u") && Get(r, "s") == Get(obj, "s");
    SameField(r, obj, "n");
    SameField(r, obj, "t");
    SameField(r, obj, "u");
    SameField(r, obj, "s");
    ValueKeysAgree(obj, m.value);
    ValueKeysSpelled();
    assert forall i :: 0 <= i < |ValueKeys| ==> AgreeOn(r, obj, ValueKeys[i]);
    assert AgreeOn(r, obj, "v") && AgreeOn(r, obj, "vs") && AgreeOn(r, obj, "vb") && AgreeOn(r, obj, "vd");
    AgreeOnRecordKeys(r, obj);
    AgreeEverywhere(r, obj, RecordKeys);
  }

  /** Agreeing on the eight record keys one by one is agreeing on `RecordKeys` */
  lemma AgreeOnRecordKeys(a: Object, b: Object)
    requires AgreeOn(a, b, "n") && AgreeOn(a, b, "t") && AgreeOn(a, b, "u") && AgreeOn(a, b, "s")
    requires AgreeOn(a, b, "v") && AgreeOn(a, b, "vs") && AgreeOn(a, b, "vb") && AgreeOn(a, b, "vd")
    ensures forall k :: k in RecordKeys ==> AgreeOn(a, b, k)
  {
  }

  /** `{"vd": "\U{e9}"}` (an e with an acute accent) does not decode: `str()` of a non-ASCII string raises */
  lemma NonAsciiOpaqueFails()
    ensures FromJson(map["vd" := JStr("\U{e9}")]) == Failure(NonAscii("vd"))
  {
    var obj := map["vd" := JStr("\U{e9}")];
    ValueKeysSpelled();
    assert "v" !in obj && "vs" !in obj && "vb" !in obj;
    assert !IsAscii(obj["vd"].s) by {
      assert obj["vd"].s[0] == '\U{e9}';
    }
  }

  /** A non-null `v` decides the value, whatever other value keys the record carries */
  lemma NumberWins(obj: Object, x: real)
    requires Get(obj, "v") == Some(JNum(x))
    ensures ValueFromJson(obj) == Success(Some(Num(x)))
  {
  }

  /** A `v` holding null decodes exactly as a missing `v`: the value comes from
      `vs`, `vb` or `vd` instead. */
  lemma NullNumberIsMissing(obj: Object)
    ensures FromJson(obj["v" := JNull]) == FromJson(obj - {"v"})
  {
    var a := obj["v" := JNull];
    var b := obj - {"v"};
    assert Get(a, "n") == Get(b, "n") && Get(a, "t") == Get(b, "t");
    assert Get(a, "u") == Get(b, "u") && Get(a, "s") == Get(b, "s");
    assert Get(a, "v") == Get(b, "v");
    assert AgreeOn(a, b, "vs") && AgreeOn(a, b, "vb") && AgreeOn(a, b, "vd");
    assert ValueFromJson(a) == ValueFromJson(b);
  }

  /** Decoding a regular record reads only the record keys. */
  lemma FromJsonReadsRecordKeys(obj: Object)
    ensures FromJson(obj) == FromJson(Restrict(obj, RecordKeys))
  {
    var o := Restrict(obj, RecordKeys);
    RestrictAgrees(obj, RecordKeys, "n");
    RestrictAgrees(obj, RecordKeys, "t");
    RestrictAgrees(obj, RecordKeys, "u");
    RestrictAgrees(obj, RecordKeys, "s");
    RestrictAgrees(obj, RecordKeys, "v");
    RestrictAgrees(obj, RecordKeys, "vs");
    RestrictAgrees(obj, RecordKeys, "vb");
    RestrictAgrees(obj, RecordKeys, "vd");
    assert ValueFromJson(o) == ValueFromJson(obj);
  }

  /** Decoding base fields reads only bn, bt, bu and bv. */
  lemma BaseFromJsonReadsBaseKeys(obj: Object)
    ensures BaseFromJson(obj) == BaseFromJson(Restrict(obj, BaseKeys))
  {
    RestrictAgrees(obj, BaseKeys, "bn");
    RestrictAgrees(obj, BaseKeys, "bt");
    RestrictAgrees(obj, BaseKeys, "bu");
    RestrictAgrees(obj, BaseKeys, "bv");
  }

  /** Values that `float()` turns into a number: numbers, and bools as 0 or 1 */
  predicate IsFloatable(v: Value) {
    v.Num? || v.Bool?
  }

  /** `float(v)` for a number or a bool */
  function FloatOf(v: Value): (x: real)
    requires IsFloatable(v)
    ensures v.Num? ==> x == v.x
  {
    if v.Num? then v.x else if v.b then 1.0 else 0.0
  }

  /** A base value that `(base.value or 0.0) + x` can add: absent, a number, a
      bool, or an empty string (falsy, so read as 0.0). A non-empty string
      raises a type error. */
  predicate Addable(bv: Option<Value>) {
    bv.None? || IsFloatable(bv.value) || bv.value == Text("") || bv.value == Opaque("")
  }

  /** What a base value contributes to a numeric sum, `(base.value or 0.0)` */
  function Addend(bv: Option<Value>): (x: real)
    requires Addable(bv)
    ensures bv.None? ==> x == 0.0
    ensures bv.Some? && bv.value.Num? ==> x == bv.value.x
  {
    if bv.Some? && IsFloatable(bv.value) then FloatOf(bv.value) else 0.0
  }

  /** Resolving `m` against `base` does not raise: the base value is only read
      when the record's own value is a number. */
  predicate Resolvable(m: Measurement, base: Measurement) {
    m.value.Some? && m.value.value.Num? ==> Addable(base.value)
  }

  /** Resolves a record against a base (`SenMLMeasurement.to_absolute`): the
      base name is prefixed, the base time added, the unit inherited when the
      record's own is absent or empty, and a numeric value offset by the base
      value. Text, bool and opaque values pass through; the sum is never
      combined with the base. */
  function ToAbsolute(m: Measurement, base: Measurement): (r: Measurement)
    requires Resolvable(m, base)
    ensures r.name == Some(base.name.GetOr("") + m.name.GetOr(""))
    ensures r.time == Some(base.time.GetOr(0.0) + m.time.GetOr(0.0))
    ensures r.unit == (if m.unit.Some? && m.unit.value != "" then m.unit else base.unit)
    ensures r.sum == m.sum
    ensures r.value.Some? <==> m.value.Some?
    ensures m.value.Some? ==> KeyOf(r.value.value) == KeyOf(m.value.value)
    ensures m.value.Some? && !m.value.value.Num? ==> r.value == m.value
    ensures m.value.Some? && m.value.value.Num? ==> r.value == Some(Num(Addend(base.value) + m.value.value.x))
  {
    var name := base.name.GetOr("") + m.name.GetOr("");
    var time := base.time.GetOr(0.0) + m.time.GetOr(0.0);
    var unit := if m.unit.Some? && m.unit.value != "" then m.unit else base.unit;
    var value :=
      match m.value
      case Some(Num(x)) => Some(Num(Addend(base.value) + x))
      case _ => m.value;
    Measurement(Some(name), Some(time), unit, value, m.sum)
  }

  /** Resolving against the empty base changes a record exactly when its name
      or time is absent (they become "" and 0) or its unit is empty (it becomes
      absent). */
  lemma ResolveAgainstEmpty(m: Measurement)
    ensures ToAbsolute(m, Empty) == m <==> m.name.Some? && m.time.Some? && m.unit != Some("")
  {
    if ToAbsolute(m, Empty) == m {
      assert m.name == ToAbsolute(m, Empty).name;
    }
    if m.name.Some? && m.time.Some? && m.unit != Some("") {
      assert "" + m.name.value == m.name.value;
      match m.value
      case Some(Num(x)) =>
      case _ =>
    }
  }

  /** Resolution is idempotent, except that an empty unit left by the first
      resolution is dropped by the second. */
  lemma ResolveIdempotent(m: Measurement, base: Measurement)
    requires Resolvable(m, base)
    ensures ToAbsolute(ToAbsolute(m, base), Empty) == ToAbsolute(m, base) <==> ToAbsolute(m, base).unit != Some("")
  {
    ResolveAgainstEmpty(ToAbsolute(m, base));
  }

  /** On the wire, a resolved record always carries `n` and `t`, keeps the
      record's sum entry, and carries its value under the same key. */
  lemma ResolvedOnTheWire(m: Measurement, base: Measurement)
    requires Resolvable(m, base)
    ensures "n" in ToJson(ToAbsolute(m, base)) && "t" in ToJson(ToAbsolute(m, base))
    ensures AgreeOn(ToJson(ToAbsolute(m, base)), ToJson(m), "s")
    ensures forall i :: 0 <= i < |ValueKeys| ==>
      (ValueKeys[i] in ToJson(ToAbsolute(m, base)) <==> ValueKeys[i] in ToJson(m))
  {
  }

  /** base {time 10, value 5} and record {time 2, value 3} resolve to time 12, value 8 */
  lemma ResolveExample()
    ensures var r := ToAbsolute(Measurement(None, Some(2.0), None, Some(Num(3.0)), None),
                                Measurement(None, Some(10.0), None, Some(Num(5.0)), None));
            r.time == Some(12.0) && r.value == Some(Num(8.0))
  {
  }
}
