/** A SenML pack (a `SenMLDocument`): an ordered list of records sharing one
    base record. On the wire it is a JSON array whose first element also
    carries the version and the base fields. */
module SenMLDocument {
  import opened Wrappers
  import opened Json
  import M = SenMLMeasurement

  /** A base record and the records, in wire order */
  datatype Document = Document(base: Option<M.Measurement>, measurements: seq<M.Measurement>)

  /** Why an array does not decode: it is empty (there is no element 0 to take
      the base from), the base fields of element 0 are mistyped, or an element
      is. */
  datatype DocError = EmptyDocument | BadBase(cause: DecodeError) | BadElement(index: nat, cause: DecodeError)

  /** The `bver` written into the first element: version 5 of the SenML draft */
  const Version: real := 5.0

  /** Decodes `items[..n]` as regular records, in order, stopping at the first
      element that does not decode. */
  function DecodeItems(items: seq<Object>, n: nat): (r: Result<seq<M.Measurement>, DocError>)
    requires n <= |items|
    ensures r.Success? <==> forall i :: 0 <= i < n ==> M.FromJson(items[i]).Success?
    ensures r.Success? ==> |r.value| == n
    ensures r.Success? ==> forall i :: 0 <= i < n ==> M.FromJson(items[i]) == Success(r.value[i])
    ensures r.Failure? ==>
      && r.error.BadElement?
      && r.error.index < n
      && M.FromJson(items[r.error.index]) == Failure(r.error.cause)
      && forall i :: 0 <= i < r.error.index ==> M.FromJson(items[i]).Success?
  {
    if n == 0 then Success([])
    else
      var init :- DecodeItems(items, n - 1);
      match M.FromJson(items[n - 1])
      case Success(m) => Success(init + [m])
      case Failure(e) => Failure(BadElement(n - 1, e))
  }

  /** Decodes a pack (`SenMLDocument.from_json`): the base comes from the base
      fields of element 0, and every element, element 0 included, is decoded as
      a regular record. */
  function FromJson(arr: seq<Object>): (r: Result<Document, DocError>)
    ensures r == Failure(EmptyDocument) <==> |arr| == 0
    ensures r.Success? <==>
      && |arr| > 0
      && M.BaseFromJson(arr[0]).Success?
      && forall i :: 0 <= i < |arr| ==> M.FromJson(arr[i]).Success?
    ensures r.Success? ==>
      && r.value.base.Some?
      && M.BaseFromJson(arr[0]) == Success(r.value.base.value)
      && M.IsBase(r.value.base.value)
      && |r.value.measurements| == |arr|
      && forall i :: 0 <= i < |arr| ==> M.FromJson(arr[i]) == Success(r.value.measurements[i])
    ensures r.Failure? && r.error.BadBase? ==> |arr| > 0 && M.BaseFromJson(arr[0]) == Failure(r.error.cause)
    ensures r.Failure? && r.error.BadElement? ==>
      && |arr| > 0
      && M.BaseFromJson(arr[0]).Success?
      && r.error.index < |arr|
      && M.FromJson(arr[r.error.index]) == Failure(r.error.cause)
      && forall i :: 0 <= i < r.error.index ==> M.FromJson(arr[i]).Success?
  {
    if |arr| == 0 then Failure(EmptyDocument)
    else
      match M.BaseFromJson(arr[0])
      case Failure(e) => Failure(BadBase(e))
      case Success(base) =>
        var ms :- DecodeItems(arr, |arr|);
        Success(Document(Some(base), ms))
  }

  /** The base can be written: `float(base.value)` needs a number or a bool */
  predicate Encodable(base: Option<M.Measurement>) {
    base.None? || base.value.value.None? || M.IsFloatable(base.value.value.value)
  }

  /** `float(base.value)`, when present */
  function FloatOpt(v: Option<M.Value>): (r: Option<real>)
    requires v.None? || M.IsFloatable(v.value)
    ensures r.Some? <==> v.Some?
    ensures v.Some? && v.value.Num? ==> r == Some(v.value.x)
  {
    if v.Some? then Some(M.FloatOf(v.value)) else None
  }

  /** The base fields written into the first element: `bn`, `bt`, `bu`, `bv`
      for those present on the base, nothing when there is no base. */
  function BaseFields(base: Option<M.Measurement>): (r: Object)
    requires Encodable(base)
    ensures r.Keys <= M.BaseKeys
    ensures forall k :: k in r ==> M.HasType(k, r[k])
    ensures base.None? ==> r == map[]
    ensures base.Some? ==>
      && M.TextFrom(r, "bn", base.value.name)
      && M.NumFrom(r, "bt", base.value.time)
      && M.TextFrom(r, "bu", base.value.unit)
      && M.NumFrom(r, "bv", FloatOpt(base.value.value))
  {
    if base.None? then map[]
    else
      var b := base.value;
      Field("bn", StrOpt(b.name)) + Field("bt", NumOpt(b.time)) + Field("bu", StrOpt(b.unit))
        + Field("bv", NumOpt(FloatOpt(b.value)))
  }

  /** The first element of an encoded pack: the version, the base fields and
      the first record's own fields. */
  function First(doc: Document): Object
    requires Encodable(doc.base)
    requires |doc.measurements| > 0
  {
    map["bver" := JNum(Version)] + BaseFields(doc.base) + M.ToJson(doc.measurements[0])
  }

  /** Encodes a pack (`SenMLDocument.to_json`): one element per record, the
      version and base fields folded into the first; no records give `[]`. */
  function ToJson(doc: Document): (r: seq<Object>)
    requires Encodable(doc.base)
    ensures |r| == |doc.measurements|
    ensures forall i :: 1 <= i < |r| ==> r[i] == M.ToJson(doc.measurements[i])
    ensures |r| > 0 ==>
      && "bver" in r[0] && r[0]["bver"] == JNum(Version)
      && r[0].Keys == {"bver"} + BaseFields(doc.base).Keys + M.ToJson(doc.measurements[0]).Keys
      && Restrict(r[0], M.BaseKeys) == BaseFields(doc.base)
      && Restrict(r[0], M.RecordKeys) == M.ToJson(doc.measurements[0])
  {
    var ms := doc.measurements;
    if |ms| == 0 then []
    else
      FirstParts(doc);
      var r := [First(doc)] + seq(|ms| - 1, i requires 0 <= i < |ms| - 1 => M.ToJson(ms[i + 1]));
      assert r[0] == First(doc);
      r
  }

  /** The version, base-field and record-field keys of the first element are
      disjoint, so folding them together overwrites nothing. */
  lemma FirstParts(doc: Document)
    requires Encodable(doc.base)
    requires |doc.measurements| > 0
    ensures "bver" !in BaseFields(doc.base) && "bver" !in M.ToJson(doc.measurements[0])
    ensures BaseFields(doc.base).Keys !! M.ToJson(doc.measurements[0]).Keys
    ensures "bver" in First(doc) && First(doc)["bver"] == JNum(Version)
    ensures First(doc).Keys == {"bver"} + BaseFields(doc.base).Keys + M.ToJson(doc.measurements[0]).Keys
    ensures Restrict(First(doc), M.BaseKeys) == BaseFields(doc.base)
    ensures Restrict(First(doc), M.RecordKeys) == M.ToJson(doc.measurements[0])
  {
    VersionBaseRecord(BaseFields(doc.base), M.ToJson(doc.measurements[0]));
  }

  /** Folding the version, base fields `b` and record fields `m` into one
      object keeps each part recoverable by its keys */
  lemma VersionBaseRecord(b: Object, m: Object)
    requires b.Keys <= M.BaseKeys && m.Keys <= M.RecordKeys
    ensures "bver" !in b && "bver" !in m
    ensures b.Keys !! m.Keys
    ensures var f := map["bver" := JNum(Version)] + b + m;
      && "bver" in f && f["bver"] == JNum(Version)
      && f.Keys == {"bver"} + b.Keys + m.Keys
      && Restrict(f, M.BaseKeys) == b
      && Restrict(f, M.RecordKeys) == m
  {
    var f := map["bver" := JNum(Version)] + b + m;
    assert M.BaseKeys !! M.RecordKeys;
    assert "bver" !in M.BaseKeys && "bver" !in M.RecordKeys;
    assert Restrict(f, M.BaseKeys) == b by {
      forall k | k in M.BaseKeys
        ensures AgreeOn(Restrict(f, M.BaseKeys), b, k)
      {
        RestrictAgrees(f, M.BaseKeys, k);
        assert k !in m;
      }
      AgreeEverywhere(Restrict(f, M.BaseKeys), b, M.BaseKeys);
    }
    assert Restrict(f, M.RecordKeys) == m by {
      forall k | k in M.RecordKeys
        ensures AgreeOn(Restrict(f, M.RecordKeys), m, k)
      {
        RestrictAgrees(f, M.RecordKeys, k);
      }
      AgreeEverywhere(Restrict(f, M.RecordKeys), m, M.RecordKeys);
    }
  }

  /** The base as decoding gives it back: name, time and unit kept, the value
      as `float(value)`, and no sum, since none is written. An absent base
      comes back as the empty one. */
  function StoredBase(base: Option<M.Measurement>): (r: M.Measurement)
    requires Encodable(base)
    ensures M.IsBase(r)
    ensures base.None? ==> r == M.Empty
    ensures base.Some? ==>
      && r.name == base.value.name && r.time == base.value.time && r.unit == base.value.unit
      && (r.value.Some? <==> base.value.value.Some?)
      && (base.value.value.Some? ==> r.value.value.x == M.FloatOf(base.value.value.value))
    ensures base.None? || M.IsBase(base.value) ==> r == base.GetOr(M.Empty)
  {
    var b := base.GetOr(M.Empty);
    var v := FloatOpt(b.value);
    M.Measurement(b.name, b.time, b.unit, if v.Some? then Some(M.Num(v.value)) else None, None)
  }

  /** The base fields written into the first element decode back to the base
      as `StoredBase` describes it: the base itself when it is one decoding
      can produce. */
  lemma BaseFieldsRoundTrip(base: Option<M.Measurement>)
    requires Encodable(base)
    ensures M.BaseFromJson(BaseFields(base)) == Success(StoredBase(base))
    ensures base.None? || M.IsBase(base.value) ==> M.BaseFromJson(BaseFields(base)) == Success(base.GetOr(M.Empty))
  {
    var obj := BaseFields(base);
    var b := base.GetOr(M.Empty);
    M.ReadText(obj, "bn", b.name);
    M.ReadNum(obj, "bt", b.time);
    M.ReadText(obj, "bu", b.unit);
    M.ReadNum(obj, "bv", FloatOpt(b.value));
  }

  /** Every record can be stored and read back (its opaque data is ASCII) */
  predicate AllStorable(ms: seq<M.Measurement>) {
    forall i :: 0 <= i < |ms| ==> M.Storable(ms[i])
  }

  /** Element i of an encoded pack decodes to record i, unless that record
      cannot be stored */
  lemma ElementsDecode(doc: Document)
    requires |doc.measurements| > 0
    requires Encodable(doc.base)
    ensures |ToJson(doc)| == |doc.measurements|
    ensures forall i :: 0 <= i < |doc.measurements| ==>
      M.FromJson(ToJson(doc)[i]) ==
        if M.Storable(doc.measurements[i]) then Success(doc.measurements[i]) else Failure(NonAscii("vd"))
  {
    var arr := ToJson(doc);
    var ms := doc.measurements;
    forall i | 0 <= i < |ms|
      ensures M.FromJson(arr[i]) == M.FromJson(M.ToJson(ms[i]))
    {
      if i == 0 {
        FirstElementDecodes(doc);
      }
    }
    RecordsDecode(arr, ms);
  }

  /** Objects that decode as the encodings of `ms` decode to `ms`, except
      for unstorable records */
  lemma RecordsDecode(arr: seq<Object>, ms: seq<M.Measurement>)
    requires |arr| == |ms|
    requires forall i :: 0 <= i < |ms| ==> M.FromJson(arr[i]) == M.FromJson(M.ToJson(ms[i]))
    ensures forall i :: 0 <= i < |ms| ==>
      M.FromJson(arr[i]) == if M.Storable(ms[i]) then Success(ms[i]) else Failure(NonAscii("vd"))
  {
    forall i | 0 <= i < |ms|
      ensures M.FromJson(arr[i]) == if M.Storable(ms[i]) then Success(ms[i]) else Failure(NonAscii("vd"))
    {
      M.RoundTrip(ms[i]);
    }
  }

  /** The version and base fields in the first element do not disturb the
      decoding of record 0 */
  lemma FirstElementDecodes(doc: Document)
    requires |doc.measurements| > 0
    requires Encodable(doc.base)
    ensures M.FromJson(ToJson(doc)[0]) == M.FromJson(M.ToJson(doc.measurements[0]))
  {
    M.FromJsonReadsRecordKeys(ToJson(doc)[0]);
  }

  /** An array whose base fields decode and whose elements decode to `ms`,
      except for unstorable records, decodes exactly when every record is
      storable; otherwise it fails at the first unstorable one. */
  lemma DecodeStorable(arr: seq<Object>, ms: seq<M.Measurement>)
    requires |arr| == |ms| > 0
    requires M.BaseFromJson(arr[0]).Success?
    requires forall i :: 0 <= i < |ms| ==>
      M.FromJson(arr[i]) == if M.Storable(ms[i]) then Success(ms[i]) else Failure(NonAscii("vd"))
    ensures FromJson(arr).Success? <==> AllStorable(ms)
    ensures AllStorable(ms) ==> FromJson(arr) == Success(Document(Some(M.BaseFromJson(arr[0]).value), ms))
    ensures !AllStorable(ms) ==>
      var e := FromJson(arr).error;
      && e.BadElement?
      && e.cause == NonAscii("vd")
      && e.index < |ms|
      && !M.Storable(ms[e.index])
      && forall i :: 0 <= i < e.index ==> M.Storable(ms[i])
  {
    var r := FromJson(arr);
    if AllStorable(ms) {
      assert r.Success?;
      assert r.value.measurements == ms;
    } else {
      var k :| 0 <= k < |ms| && !M.Storable(ms[k]);
      assert M.FromJson(arr[k]).Failure?;
      assert r.Failure?;
    }
  }

  /** Decoding an encoded pack with at least one record gives back its
      records and its base as `StoredBase` describes it: a base sum is lost
      and a bool base value comes back as a number, so the base itself comes
      back exactly when it is one decoding can produce. An absent base comes
      back as the empty base. A record whose opaque data is not ASCII makes
      decoding fail instead, at the first such record. */
  lemma RoundTrip(doc: Document)
    requires |doc.measurements| > 0
    requires Encodable(doc.base)
    ensures FromJson(ToJson(doc)).Success? <==> AllStorable(doc.measurements)
    ensures AllStorable(doc.measurements) ==>
      FromJson(ToJson(doc)) == Success(Document(Some(StoredBase(doc.base)), doc.measurements))
    ensures AllStorable(doc.measurements) && (doc.base.None? || M.IsBase(doc.base.value)) ==>
      FromJson(ToJson(doc)) == Success(Document(Some(doc.base.GetOr(M.Empty)), doc.measurements))
    ensures !AllStorable(doc.measurements) ==>
      var e := FromJson(ToJson(doc)).error;
      && e.BadElement?
      && e.cause == NonAscii("vd")
      && e.index < |doc.measurements|
      && !M.Storable(doc.measurements[e.index])
      && forall i :: 0 <= i < e.index ==> M.Storable(doc.measurements[i])
  {
    BaseFieldsRoundTrip(doc.base);
    var arr := ToJson(doc);
    M.BaseFromJsonReadsBaseKeys(arr[0]);
    ElementsDecode(doc);
    DecodeStorable(arr, doc.measurements);
  }

  /** A base with a sum and a bool value comes back without the sum and with
      the value as a number */
  lemma BoolBaseBecomesNumber()
    ensures StoredBase(Some(M.Measurement(None, None, None, Some(M.Bool(true)), Some(2.0))))
      == M.Measurement(None, None, None, Some(M.Num(1.0)), None)
  {
  }

  /** A pack with no records encodes to `[]`, dropping its base, and `[]` does
      not decode: such a pack does not survive the round trip. */
  lemma EmptyDoesNotRoundTrip(doc: Document)
    requires Encodable(doc.base)
    requires |doc.measurements| == 0
    ensures ToJson(doc) == []
    ensures FromJson(ToJson(doc)) == Failure(EmptyDocument)
  {
  }

  /** Positions of the records that carry a name, in increasing order */
  function NamedIndices(ms: seq<M.Measurement>): (idx: seq<nat>)
    ensures |idx| <= |ms|
    ensures forall k :: 0 <= k < |idx| ==> idx[k] < |ms| && ms[idx[k]].name.Some?
    ensures forall k, l :: 0 <= k < l < |idx| ==> idx[k] < idx[l]
    ensures forall i :: 0 <= i < |ms| && ms[i].name.Some? ==> i in idx
  {
    if |ms| == 0 then []
    else
      var init := NamedIndices(ms[..|ms| - 1]);
      init + (if ms[|ms| - 1].name.Some? then [|ms| - 1] else [])
  }

  /** Every named record can be resolved against the base: there is a base,
      and its value can be added where the record's value is a number. */
  predicate CanResolve(base: Option<M.Measurement>, ms: seq<M.Measurement>) {
    forall i :: 0 <= i < |ms| && ms[i].name.Some? ==> base.Some? && M.Resolvable(ms[i], base.value)
  }

  /** The resolved, encoded forms of the named records among `ms`, in order */
  function ResolveNamed(base: Option<M.Measurement>, ms: seq<M.Measurement>): (r: seq<Object>)
    requires CanResolve(base, ms)
    ensures |r| == |NamedIndices(ms)|
    ensures |r| > 0 ==> base.Some?
    ensures forall k :: 0 <= k < |r| ==> r[k] == M.ToJson(M.ToAbsolute(ms[NamedIndices(ms)[k]], base.value))
  {
    if |ms| == 0 then []
    else
      var front := ms[..|ms| - 1];
      var last := ms[|ms| - 1];
      assert ms == front + [last];
      NamedIndicesSnoc(front, last);
      var init := ResolveNamed(base, front);
      if base.None? then
        init
      else if last.name.None? then
        KeepResolved(base.value, front, last, init);
        init
      else
        ExtendResolved(base.value, front, last, init);
        init + [M.ToJson(M.ToAbsolute(last, base.value))]
  }

  /** Appending a record appends its position to the named positions exactly
      when it has a name */
  lemma NamedIndicesSnoc(front: seq<M.Measurement>, last: M.Measurement)
    ensures NamedIndices(front + [last]) == NamedIndices(front) + (if last.name.Some? then [|front|] else [])
  {
    assert (front + [last])[..|front|] == front;
  }

  /** Every named record among `ms` can be resolved against `b` */
  predicate NamedResolvable(b: M.Measurement, ms: seq<M.Measurement>) {
    forall i :: 0 <= i < |ms| && ms[i].name.Some? ==> M.Resolvable(ms[i], b)
  }

  /** An unnamed last record adds nothing to the resolved forms of the others */
  lemma KeepResolved(b: M.Measurement, front: seq<M.Measurement>, last: M.Measurement, init: seq<Object>)
    requires last.name.None?
    requires NamedResolvable(b, front)
    requires |init| == |NamedIndices(front)|
    requires forall k :: 0 <= k < |init| ==> init[k] == M.ToJson(M.ToAbsolute(front[NamedIndices(front)[k]], b))
    ensures NamedResolvable(b, front + [last])
    ensures |init| == |NamedIndices(front + [last])|
    ensures forall k :: 0 <= k < |init| ==>
      init[k] == M.ToJson(M.ToAbsolute((front + [last])[NamedIndices(front + [last])[k]], b))
  {
    var ms := front + [last];
    NamedIndicesSnoc(front, last);
    forall k | 0 <= k < |init|
      ensures init[k] == M.ToJson(M.ToAbsolute(ms[NamedIndices(ms)[k]], b))
    {
      var j := NamedIndices(front)[k];
      assert NamedIndices(ms)[k] == j && ms[j] == front[j];
    }
  }

  /** A named last record adds its own resolved form after those of the others */
  lemma ExtendResolved(b: M.Measurement, front: seq<M.Measurement>, last: M.Measurement, init: seq<Object>)
    requires last.name.Some? && M.Resolvable(last, b)
    requires NamedResolvable(b, front)
    requires |init| == |NamedIndices(front)|
    requires forall k :: 0 <= k < |init| ==> init[k] == M.ToJson(M.ToAbsolute(front[NamedIndices(front)[k]], b))
    ensures NamedResolvable(b, front + [last])
    ensures |init| + 1 == |NamedIndices(front + [last])|
    ensures forall k :: 0 <= k < |init| + 1 ==>
      (init + [M.ToJson(M.ToAbsolute(last, b))])[k] ==
        M.ToJson(M.ToAbsolute((front + [last])[NamedIndices(front + [last])[k]], b))
  {
    var ms := front + [last];
    var r := init + [M.ToJson(M.ToAbsolute(last, b))];
    NamedIndicesSnoc(front, last);
    forall k | 0 <= k < |init|
      ensures r[k] == M.ToJson(M.ToAbsolute(ms[NamedIndices(ms)[k]], b))
    {
      var j := NamedIndices(front)[k];
      assert r[k] == init[k];
      assert NamedIndices(ms)[k] == j && ms[j] == front[j];
    }
    assert NamedIndices(ms)[|init|] == |front| && ms[|front|] == last;
  }

  /** The resolved records of a pack (`SenMLDocument.to_absolute_json`): each
      named record resolved against the base and encoded, in order; records
      without a name are dropped. */
  function ToAbsoluteJson(doc: Document): (r: seq<Object>)
    requires CanResolve(doc.base, doc.measurements)
    ensures |r| <= |doc.measurements|
    ensures |r| == |NamedIndices(doc.measurements)|
    ensures |r| > 0 ==> doc.base.Some?
    ensures forall k :: 0 <= k < |r| ==>
      r[k] == M.ToJson(M.ToAbsolute(doc.measurements[NamedIndices(doc.measurements)[k]], doc.base.value))
    ensures forall k :: 0 <= k < |r| ==> "n" in r[k] && "t" in r[k]
  {
    var r := ResolveNamed(doc.base, doc.measurements);
    forall k | 0 <= k < |r|
      ensures "n" in r[k] && "t" in r[k]
    {
      M.ResolvedOnTheWire(doc.measurements[NamedIndices(doc.measurements)[k]], doc.base.value);
    }
    r
  }

  /** A pack decoded from `[{"bn": "sensor/", "bt": 100, "n": "temp", "v": 21.5}]`:
      the base holds the base fields and the one record its own fields. */
  lemma DecodeExample()
    ensures FromJson([map["bn" := JStr("sensor/"), "bt" := JNum(100.0), "n" := JStr("temp"), "v" := JNum(21.5)]])
         == Success(Document(Some(M.Measurement(Some("sensor/"), Some(100.0), None, None, None)),
                             [M.Measurement(Some("temp"), None, None, Some(M.Num(21.5)), None)]))
  {
    var obj := map["bn" := JStr("sensor/"), "bt" := JNum(100.0), "n" := JStr("temp"), "v" := JNum(21.5)];
    assert "bu" !in obj && "bv" !in obj && "t" !in obj && "u" !in obj && "s" !in obj;
    assert M.BaseFromJson(obj) == Success(M.Measurement(Some("sensor/"), Some(100.0), None, None, None));
    assert M.ValueFromJson(obj) == Success(Some(M.Num(21.5)));
    assert M.FromJson(obj) == Success(M.Measurement(Some("temp"), None, None, Some(M.Num(21.5)), None));
    var arr := [obj];
    assert arr[0] == obj;
    var d := DecodeItems(arr, 1);
    assert d.Success? && |d.value| == 1;
    assert d.value == [d.value[0]];
  }
}
