# SenML record model in Dafny

A model of `senml/senml.py`, the Python representation of Sensor Measurement
Lists in their JSON form: draft-ietf-core-senml version 5 (the `bver` it
writes), later published as RFC 8428. It covers the base fields `bn`, `bt`,
`bu`, `bv` (section 4.1 of RFC 8428) and resolved records (section 4.6 of
RFC 8428).

Four modules, all pure functions over immutable values:

- `Wrappers` (`wrappers.dfy`): `Option` for every record field, `Result` for decoders.
- `Json` (`json.dfy`): decoded JSON. A record is a flat object `map<string, JVal>`
  of scalars (`JNull | JBool | JNum(real) | JStr`). The keys `n`, `t`, `u`, `s`,
  `v` and the base keys are read with `dict.get` semantics: a missing key and a
  key holding null are both absent. The keys `vs`, `vb` and `vd` are tested
  with `in`, so a null there counts as present; the model then reports a
  type mismatch where Python stores `u"None"`, `False` or `"None"` (see Left out).
- `SenMLMeasurement` (`measurement.dfy`): one record, a `Measurement` whose five
  fields are all `Option`s and whose value is a tagged `Value` =
  `Num | Bool | Text | Opaque` (`v`, `vb`, `vs`, `vd` on the wire). It has the
  decoder (`from_json`), the base-field decoder (`base_from_json`), the
  encoder (`to_json`) and resolution against a base (`to_absolute`).
- `SenMLDocument` (`document.dfy`): a pack, a base plus a sequence of records.
  It decodes a JSON array (element 0 is the base source and is also decoded
  as a record), encodes one (version and base fields folded into element 0),
  and lists the resolved forms of the named records (`to_absolute_json`).

The central facts are the round trips through a JSON codec, where every
string read back is a decoded (`unicode`) JSON string.
`FromJson(ToJson(m)) == Success(m)` holds for every record whose opaque data
is ASCII, and fails with `NonAscii("vd")` for the others. A canonical object (the shape `ToJson`
emits) with ASCII opaque data is the encoding of the record it decodes to. For
packs, decoding an encoded pack with at least one record and ASCII opaque
data gives back its records, and its base as `StoredBase` describes it: the
base itself when it has no sum and a numeric or absent value; otherwise the
sum is lost and a bool value comes back as a number. An absent base comes
back as the empty base. A pack with no records encodes to `[]`, which does
not decode. Resolution
and the key layout of the first element are stated exactly.

Behaviours of the code worth noting:

- An opaque (`vd`) value passes through `to_absolute` unchanged, like text
  and booleans. The `isinstance(..., (bool, str, unicode))` test at
  senml/senml.py:31 includes `str`, which is what `vd` decodes to at
  senml/senml.py:68. It is not added to the base value.
- An own unit that is the empty string falls back to the base unit, because
  of the `or` at senml/senml.py:28. The result is not simply "own unit if
  present".
- Opaque data is converted with Python 2's `str()` at senml/senml.py:68.
  `json.loads` yields `unicode` strings, and `str()` of a non-ASCII one
  raises. The model reports this as `NonAscii("vd")`, so a record whose
  opaque data is not ASCII does not decode from JSON and does not survive a
  round trip through a JSON codec.

## Model

| member | source | states |
|---|---|---|
| SenMLMeasurement.ValueFromJson | senml/senml.py:59-68 | The value comes from the first value key supplied in the order `v` (non-null), `vs`, `vb`, `vd`, and carries that key's tag. Keys ranked before it are not supplied. The value is absent exactly when none is supplied. It fails with `NonAscii("vd")` exactly when `vd` is picked and holds a non-ASCII string. |
| SenMLMeasurement.NumberWins | senml/senml.py:59-62 | A non-null numeric `v` gives `Num` of that number, even when `vs`, `vb` or `vd` are also present. |
| SenMLMeasurement.NullNumberIsMissing | senml/senml.py:59-63 | A record whose `v` is null decodes exactly like the same record without `v`. |
| SenMLMeasurement.FromJson | senml/senml.py:51-70 | Decoding succeeds exactly when the consulted keys are well typed and picked opaque data is ASCII. `n`, `t`, `u`, `s` then become name, time, unit and sum, each absent when missing or null. The value is the one `ValueFromJson` picks. |
| SenMLMeasurement.BaseFromJson | senml/senml.py:39-49 | `bn`, `bt`, `bu`, `bv` become name, time, unit and a numeric value. The sum is always absent, so the result is a base record. |
| SenMLMeasurement.FromJsonReadsRecordKeys | senml/senml.py:54-68 | Record decoding reads only `n`, `t`, `u`, `s`, `v`, `vs`, `vb`, `vd`. Every other key, base fields and `bver` included, is ignored. |
| SenMLMeasurement.BaseFromJsonReadsBaseKeys | senml/senml.py:42-48 | Base decoding reads only `bn`, `bt`, `bu`, `bv`. |
| SenMLMeasurement.ToJson | senml/senml.py:72-96 | `n`, `t`, `u`, `s` are emitted exactly for the present fields. Exactly one of `v`/`vs`/`vb`/`vd` is emitted, the one matching the value's tag, and none when the value is absent. No null is emitted and no other key appears. |
| SenMLMeasurement.RoundTrip | senml/senml.py:51-96 | Decoding an encoded record gives back the same record, with all four value tags preserved, when its opaque data is ASCII. Otherwise decoding fails with `NonAscii("vd")`. |
| SenMLMeasurement.NonAsciiOpaqueFails | senml/senml.py:67-68 | `{"vd": "\U{e9}"}` does not decode: it fails with `NonAscii("vd")`. |
| SenMLMeasurement.EncodeDecode | senml/senml.py:51-96 | A canonical object (the shape `to_json` emits) decodes exactly when its opaque data is ASCII, and then re-encodes to itself. So encoding is a bijection between storable records and canonical objects with ASCII opaque data. |
| SenMLMeasurement.ToAbsolute | senml/senml.py:19-37 | The name is base name then own name, each "" when absent, so it is always present. The time is base time plus own time, each 0 when absent. The unit is the own unit unless absent or empty, else the base unit. The sum is copied. Bool, text and opaque values are unchanged. A number is offset by the base value, 0 when absent. An absent value stays absent. |
| SenMLMeasurement.ResolveAgainstEmpty | senml/senml.py:25-34 | Resolving against the empty base leaves a record unchanged if and only if its name and time are present and its unit is not "". |
| SenMLMeasurement.ResolveIdempotent | senml/senml.py:25-34 | Resolving a resolved record again against the empty base changes nothing, if and only if the resolved unit is not "". |
| SenMLMeasurement.ResolvedOnTheWire | senml/senml.py:25-34 | An encoded resolved record always carries `n` and `t`. It keeps the record's `s` entry and carries its value under the same key as the unresolved record. |
| SenMLMeasurement.ResolveExample | senml/senml.py:27-34 | Base time 10, value 5 and own time 2, value 3 resolve to time 12 and value 8. |
| SenMLDocument.DecodeItems | senml/senml.py:129 | One decoded record per element, in order. On failure it reports the first element that does not decode. |
| SenMLDocument.FromJson | senml/senml.py:120-133 | An array is rejected as empty exactly when it is empty. Otherwise the base is the base-field decoding of element 0, and there is one record per element, element 0 included, in order. A failure names the base fields or the first element that does not decode, with its cause. |
| SenMLDocument.BaseFields | senml/senml.py:141-151 | The first element carries `bn`, `bt`, `bu`, `bv` exactly for the base's present fields, and nothing when there is no base. |
| SenMLDocument.ToJson | senml/senml.py:135-160 | One element per record. Element i > 0 is record i's encoding. Element 0 has `bver` = 5 and is the union of the version, the base fields and record 0's encoding. Its base keys and its record keys give back each part, so no key is overwritten. No records give `[]`. |
| SenMLDocument.FirstParts | senml/senml.py:137-154 | The version key, the base-field keys and the record keys of element 0 are pairwise disjoint. |
| SenMLDocument.BaseFieldsRoundTrip | senml/senml.py:141-151 | The base fields written to element 0 decode back to the base with its sum dropped and its value as `float(value)`. A base that decoding can produce (no sum, numeric or absent value) comes back unchanged. An absent base decodes to the empty one. |
| SenMLDocument.BoolBaseBecomesNumber | senml/senml.py:141-151 | A base with value `True` and sum 2 comes back with value 1.0 and no sum. |
| SenMLDocument.RoundTrip | senml/senml.py:120-160 | Decoding an encoded pack with at least one record succeeds exactly when every record's opaque data is ASCII. It then gives back the records, in order, and the base with its sum dropped and a bool value as a number. So a base that decoding can produce (no sum, numeric or absent value) comes back unchanged, and an absent base comes back as the empty base. Otherwise it fails with `NonAscii("vd")` at the first record with non-ASCII opaque data. |
| SenMLDocument.EmptyDoesNotRoundTrip | senml/senml.py:153-158 | A pack without records encodes to `[]`, losing its base, and `[]` is rejected by decoding. |
| SenMLDocument.NamedIndices | senml/senml.py:166 | Lists the positions of the records that have a name, strictly increasing. Every named position is listed and no other. |
| SenMLDocument.ResolveNamed | senml/senml.py:166 | Element k is the encoded resolution, against the base, of the k-th named record. |
| SenMLDocument.ToAbsoluteJson | senml/senml.py:162-166 | Lists, in order, the encoded resolution of exactly the named records, so the output is no longer than the record list. Each element carries `n` and `t`. Any named record requires a base. |
| SenMLDocument.DecodeExample | senml/senml.py:127-129 | `[{"bn": "sensor/", "bt": 100, "n": "temp", "v": 21.5}]` decodes to base {name "sensor/", time 100} and one record {name "temp", value 21.5}. |

## Left out

- The `attrs` decoration and its field defaults (senml/senml.py:8, 13-17, 99) are metaprogramming. They are replaced by a plain datatype whose fields are all `Option`s.
- `float(...)` is the identity on `real`. IEEE-754 behaviour (NaN, infinities, rounding) is not modelled.
- SenMLMeasurement.FromJson: Python 2's coercion of mistyped inputs (`unicode()`, `str()`, `bool()`, or storing a wrongly typed `n`/`t`/`u`/`s`/`v` as it is) is not modelled. A consulted key of the wrong JSON type gives `TypeMismatch(key)`. That includes null under `vs`, `vb` or `vd`, which Python would turn into `u"None"`, `False` or `"None"`. So `TypeMismatch` marks inputs where the model rejects what Python stores. Python does raise for non-ASCII opaque data, and that failure is modelled. When several keys fail, the order in which they are reported belongs to the model only.
- SenMLMeasurement.BaseFromJson: likewise, a wrongly typed `bn`/`bt`/`bu`/`bv` gives `TypeMismatch` instead of being stored.
- SenMLMeasurement.ToAbsolute: requires `Resolvable`. Python raises a type error when the own value is a number and the base value is a non-empty string, and those inputs are excluded. A bool base value is added as 0 or 1, as Python does.
- SenMLMeasurement.RoundTrip: `JStr` stands for a decoded `unicode` JSON string, so the modelled round trip is the one through a JSON codec. Python's in-memory `from_json(to_json(m))` keeps non-ASCII opaque bytes, because `to_json` stores the byte string unchanged (senml/senml.py:89-90) and `str()` of a byte string is the identity (senml/senml.py:68). That round trip is not modelled.
- SenMLDocument.RoundTrip: likewise the round trip through a JSON codec only. The in-memory round trip of records with non-ASCII opaque bytes, which succeeds in Python, is not modelled.
- SenMLDocument.ToJson: requires the base value, when present, to be a number or a bool. `float()` of a string base value (parsed or raising) is not modelled.
- SenMLDocument.ToAbsoluteJson: requires a base whenever some record has a name. Python raises an attribute error on a missing base.
- A pack whose measurement list is `None` (the constructor default) is not modelled. The list is a sequence.
- The constructor's keyword plumbing and the `measurement_factory` indirection (senml/senml.py:105-118) are language plumbing.
- JSON text lexing and printing (`json.loads`) belong to an external codec. Array elements that are not objects, and nested JSON values, cannot be represented here.
- CBOR support is an unimplemented to-do (senml/senml.py:5).
