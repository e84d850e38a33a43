/**
Values on their way through the cache: a typed value is stored as JSON, comes back as a generic
value (numbers as float64, objects as maps), and `Decode` turns it into a typed value again.
Numbers are integers here, below 10^21 where `encoding/json` would turn to exponents; an object is a
map from names to values.
*/
module Typed {
  import opened Wrappers
  import opened Decimals
  import opened Doubles

  datatype Json =
    | JNull
    | JBool(b: bool)
    | JNum(n: int)
    | JStr(s: string)
    | JArr(items: seq<Json>)
    | JObj(fields: map<string, Json>)

  /** What `json.Unmarshal` puts into an `any`. */
  datatype Generic =
    | GNil
    | GBool(b: bool)
    | GFloat(n: int)
    | GStr(s: string)
    | GSlice(items: seq<Generic>)
    | GMap(fields: map<string, Generic>)

  datatype Type = TBool | TInt(min: int, max: int) | TString | TSlice(elem: Type) | TStruct(fields: map<string, Type>)

  datatype Value =
    | VBool(b: bool)
    | VInt(n: int)
    | VString(s: string)
    | VNilSlice
    | VSlice(items: seq<Value>)
    | VStruct(fields: map<string, Value>)

  /** A value behind Go's `any`: of a static type, generic, or one that JSON cannot encode. */
  datatype Any = Static(t: Type, v: Value) | Dynamic(g: Generic) | Unencodable

  predicate HasType(v: Value, t: Type) {
    match t
    case TBool => v.VBool?
    case TInt(min, max) => v.VInt? && min <= v.n <= max
    case TString => v.VString?
    case TSlice(elem) => v.VNilSlice? || (v.VSlice? && forall i | 0 <= i < |v.items| :: HasType(v.items[i], elem))
    case TStruct(fields) =>
      v.VStruct? && v.fields.Keys == fields.Keys && forall k | k in fields :: HasType(v.fields[k], fields[k])
  }

  /** Integer types have zero among their values and fit in 64 bits, signed or unsigned. */
  predicate WellFormed(t: Type) {
    match t
    case TInt(min, max) => -0x8000_0000_0000_0000 <= min <= 0 <= max < 0x1_0000_0000_0000_0000
    case TSlice(elem) => WellFormed(elem)
    case TStruct(fields) => forall k | k in fields :: WellFormed(fields[k])
    case _ => true
  }

  function Zero(t: Type): Value {
    match t
    case TBool => VBool(false)
    case TInt(_, _) => VInt(0)
    case TString => VString("")
    case TSlice(_) => VNilSlice
    case TStruct(fields) => VStruct(map k | k in fields :: Zero(fields[k]))
  }

  // ----- encoding/json -----

  function Marshal(v: Value): Json {
    match v
    case VBool(b) => JBool(b)
    case VInt(n) => JNum(n)
    case VString(s) => JStr(s)
    case VNilSlice => JNull
    case VSlice(items) => JArr(seq(|items|, i requires 0 <= i < |items| => Marshal(items[i])))
    case VStruct(fields) => JObj(map k | k in fields :: Marshal(fields[k]))
  }

  function UnmarshalGeneric(j: Json): Generic {
    match j
    case JNull => GNil
    case JBool(b) => GBool(b)
    case JNum(n) => GFloat(ToDouble(n))
    case JStr(s) => GStr(s)
    case JArr(items) => GSlice(seq(|items|, i requires 0 <= i < |items| => UnmarshalGeneric(items[i])))
    case JObj(fields) => GMap(map k | k in fields :: UnmarshalGeneric(fields[k]))
  }

  function MarshalGeneric(g: Generic): Json {
    match g
    case GNil => JNull
    case GBool(b) => JBool(b)
    case GFloat(n) => JNum(PrintDouble(n))
    case GStr(s) => JStr(s)
    case GSlice(items) => JArr(seq(|items|, i requires 0 <= i < |items| => MarshalGeneric(items[i])))
    case GMap(fields) => JObj(map k | k in fields :: MarshalGeneric(fields[k]))
  }

  function MarshalAny(a: Any): Option<Json> {
    match a
    case Static(_, v) => Some(Marshal(v))
    case Dynamic(g) => Some(MarshalGeneric(g))
    case Unencodable => None
  }

  datatype DecodeError = MarshalFailed | TypeMismatch

  /** Unmarshalling into a fresh target: null and absent fields leave the zero value. */
  function Unmarshal(t: Type, j: Json): Result<Value, DecodeError>
    decreases t
  {
    if j.JNull? then Ok(Zero(t)) else
    match (t, j)
    case (TBool, JBool(b)) => Ok(VBool(b))
    case (TInt(min, max), JNum(n)) => if min <= n <= max then Ok(VInt(n)) else Err(TypeMismatch)
    case (TString, JStr(s)) => Ok(VString(s))
    case (TSlice(elem), JArr(items)) =>
      if forall i | 0 <= i < |items| :: Unmarshal(elem, items[i]).Ok?
      then Ok(VSlice(seq(|items|, i requires 0 <= i < |items| => Unmarshal(elem, items[i]).value)))
      else Err(TypeMismatch)
    case (TStruct(fields), JObj(obj)) =>
      if forall k | k in fields && k in obj :: Unmarshal(fields[k], obj[k]).Ok?
      then Ok(VStruct(map k | k in fields :: if k in obj then Unmarshal(fields[k], obj[k]).value else Zero(fields[k])))
      else Err(TypeMismatch)
    case _ => Err(TypeMismatch)
  }

  // ----- Decode -----

  /** The type assertion `result.(T)`. */
  function Assert(t: Type, a: Any): Option<Value> {
    match a
    case Static(t', v) => if t' == t then Some(v) else None
    case Dynamic(GBool(b)) => if t.TBool? then Some(VBool(b)) else None
    case Dynamic(GStr(s)) => if t.TString? then Some(VString(s)) else None
    case _ => None
  }

  function Decode(t: Type, a: Any): Result<Value, DecodeError> {
    if a == Dynamic(GNil) then Ok(Zero(t)) else
    match Assert(t, a)
    case Some(v) => Ok(v)
    case None =>
      match MarshalAny(a)
      case None => Err(MarshalFailed)
      case Some(j) => Unmarshal(t, j)
  }

  /** A cache miss: the loader's value goes straight to Decode. */
  function MissPath(t: Type, v: Value): Result<Value, DecodeError> {
    Decode(t, Static(t, v))
  }

  /** A cache hit: the value was stored as JSON and read back as a generic value. */
  function HitPath(t: Type, v: Value): Result<Value, DecodeError> {
    Decode(t, Dynamic(UnmarshalGeneric(Marshal(v))))
  }

  // ----- Hit path against miss path -----

  /** Every integer in the value is the shortest decimal of its double (Doubles.SurvivesExactly). */
  predicate AllSurvive(v: Value) {
    match v
    case VInt(n) => Survives(n)
    case VSlice(items) => forall i | 0 <= i < |items| :: AllSurvive(items[i])
    case VStruct(fields) => forall k | k in fields :: AllSurvive(fields[k])
    case _ => true
  }

  /** The JSON of the second encoding. */
  function Regenerated(v: Value): Json {
    MarshalGeneric(UnmarshalGeneric(Marshal(v)))
  }

  lemma SliceDecodes(elem: Type, items: seq<Value>, js: seq<Json>)
    requires |js| == |items|
    requires forall i | 0 <= i < |items| :: Unmarshal(elem, js[i]) == Ok(items[i]) <==> AllSurvive(items[i])
    ensures Unmarshal(TSlice(elem), JArr(js)) == Ok(VSlice(items)) <==> AllSurvive(VSlice(items))
  {
    var r := Unmarshal(TSlice(elem), JArr(js));
    assert r.Ok? ==> forall i | 0 <= i < |items| :: Unmarshal(elem, js[i]) == Ok(r.value.items[i]);
    if forall i | 0 <= i < |items| :: Unmarshal(elem, js[i]) == Ok(items[i]) {
      assert r.value.items == items;
    }
  }

  lemma StructDecodes(types: map<string, Type>, fields: map<string, Value>, obj: map<string, Json>)
    requires types.Keys == fields.Keys == obj.Keys
    requires forall k | k in fields :: Unmarshal(types[k], obj[k]) == Ok(fields[k]) <==> AllSurvive(fields[k])
    ensures Unmarshal(TStruct(types), JObj(obj)) == Ok(VStruct(fields)) <==> AllSurvive(VStruct(fields))
  {
    var r := Unmarshal(TStruct(types), JObj(obj));
    assert r.Ok? ==> forall k | k in fields :: Unmarshal(types[k], obj[k]) == Ok(r.value.fields[k]);
    if forall k | k in fields :: Unmarshal(types[k], obj[k]) == Ok(fields[k]) {
      assert r.value.fields == fields;
    }
  }

  lemma {:induction false} RegeneratedDecodes(t: Type, v: Value)
    requires HasType(v, t) && WellFormed(t)
    ensures Unmarshal(t, Regenerated(v)) == Ok(v) <==> AllSurvive(v)
    decreases t
  {
    hide PrintDouble, ToDouble;
    match v
    case VSlice(items) =>
      var js := Regenerated(v).items;
      forall i | 0 <= i < |items|
        ensures Unmarshal(t.elem, js[i]) == Ok(items[i]) <==> AllSurvive(items[i])
      {
        RegeneratedDecodes(t.elem, items[i]);
        assert js[i] == Regenerated(items[i]);
      }
      SliceDecodes(t.elem, items, js);
    case VStruct(fields) =>
      var obj := Regenerated(v).fields;
      forall k | k in fields
        ensures Unmarshal(t.fields[k], obj[k]) == Ok(fields[k]) <==> AllSurvive(fields[k])
      {
        RegeneratedDecodes(t.fields[k], fields[k]);
        assert obj[k] == Regenerated(fields[k]);
      }
      StructDecodes(t.fields, fields, obj);
    case _ =>
  }

  /**
  A hit yields the very value a miss yields exactly when every integer in it is the shortest decimal
  of the double it reads as.
  */
  lemma HitEqualsMiss(t: Type, v: Value)
    requires HasType(v, t) && WellFormed(t)
    ensures MissPath(t, v) == Ok(v)
    ensures HitPath(t, v) == MissPath(t, v) <==> AllSurvive(v)
  {
    RegeneratedDecodes(t, v);
  }

  /** Every integer in the value is at most 2^53 in magnitude. */
  predicate AllSmall(v: Value) {
    match v
    case VInt(n) => Abs(n) <= EXACT
    case VSlice(items) => forall i | 0 <= i < |items| :: AllSmall(items[i])
    case VStruct(fields) => forall k | k in fields :: AllSmall(fields[k])
    case _ => true
  }

  /** Values of any shape with small integers come back from the cache as they went in. */
  lemma {:induction false} SmallIntegersSurvive(v: Value)
    requires AllSmall(v)
    ensures AllSurvive(v)
  {
    hide PrintDouble, ToDouble, Survives;
    match v
    case VInt(n) => ExactRange(n);
    case VSlice(items) =>
      forall i | 0 <= i < |items|
        ensures AllSurvive(items[i])
      {
        SmallIntegersSurvive(items[i]);
      }
    case VStruct(fields) =>
      forall k | k in fields
        ensures AllSurvive(fields[k])
      {
        SmallIntegersSurvive(fields[k]);
      }
    case _ =>
  }

  // ----- Whatever is stored -----

  /** Every number in a generic value is a double, as in every value that comes from JSON text. */
  predicate GenericDoubles(g: Generic) {
    match g
    case GFloat(n) => Reads(Abs(n), Abs(n))
    case GSlice(items) => forall i | 0 <= i < |items| :: GenericDoubles(items[i])
    case GMap(fields) => forall k | k in fields :: GenericDoubles(fields[k])
    case _ => true
  }

  lemma {:induction false} GenericReturns(g: Generic)
    ensures UnmarshalGeneric(MarshalGeneric(g)) == g <==> GenericDoubles(g)
  {
    hide PrintDouble, ToDouble, Reads;
    var back := UnmarshalGeneric(MarshalGeneric(g));
    match g
    case GFloat(n) => PrintReadsBackExactly(n);
    case GSlice(items) =>
      forall i | 0 <= i < |items|
        ensures back.items[i] == items[i] <==> GenericDoubles(items[i])
      {
        GenericReturns(items[i]);
      }
      assert back == g <==> back.items == items;
      assert back.items == items <==> forall i | 0 <= i < |items| :: back.items[i] == items[i];
    case GMap(fields) =>
      forall k | k in fields
        ensures back.fields[k] == fields[k] <==> GenericDoubles(fields[k])
      {
        GenericReturns(fields[k]);
      }
      assert back == g <==> back.fields == fields;
      assert back.fields == fields <==> forall k | k in fields :: back.fields[k] == fields[k];
    case _ =>
  }

  lemma {:induction false} ReadIsDouble(j: Json)
    ensures GenericDoubles(UnmarshalGeneric(j))
  {
    hide ToDouble, Reads;
    match j
    case JNum(n) => ReadNumber(n);
    case JArr(items) =>
      forall i | 0 <= i < |items|
        ensures GenericDoubles(UnmarshalGeneric(items[i]))
      {
        ReadIsDouble(items[i]);
      }
    case JObj(fields) =>
      forall k | k in fields
        ensures GenericDoubles(UnmarshalGeneric(fields[k]))
      {
        ReadIsDouble(fields[k]);
      }
    case _ =>
  }

  lemma ReadNumber(n: int)
    ensures Reads(Abs(ToDouble(n)), Abs(ToDouble(n)))
  {
    RoundIsDouble(Abs(n));
  }

  /**
  What a reader gets for a stored value, in the reader's terms: a typed value decodes to itself exactly
  when its integers survive float64, a generic one is itself exactly when its numbers are doubles.
  */
  predicate ReadsBack(got: Any, value: Any) {
    match value
    case Static(t, v) => HasType(v, t) && WellFormed(t) ==> (Decode(t, got) == Ok(v) <==> AllSurvive(v))
    case Dynamic(g) => got == Dynamic(g) <==> GenericDoubles(g)
    case Unencodable => false
  }

  /** Everything but what JSON cannot encode can be stored, and reads back. */
  lemma StoredReadsBack(value: Any)
    ensures MarshalAny(value).Some? <==> !value.Unencodable?
    ensures MarshalAny(value).Some? ==> ReadsBack(Dynamic(UnmarshalGeneric(MarshalAny(value).value)), value)
  {
    hide PrintDouble, ToDouble, Reads, Survives;
    match value
    case Static(t, v) => if HasType(v, t) && WellFormed(t) { HitEqualsMiss(t, v); }
    case Dynamic(g) => GenericReturns(g);
    case Unencodable =>
  }

  // ----- What can be decoded -----

  /** The JSON fits the type: null fits any, numbers within range, and fields that both have fit. */
  predicate Fits(j: Json, t: Type)
    decreases t
  {
    j.JNull? ||
    match t
    case TBool => j.JBool?
    case TInt(min, max) => j.JNum? && min <= j.n <= max
    case TString => j.JStr?
    case TSlice(elem) => j.JArr? && forall i | 0 <= i < |j.items| :: Fits(j.items[i], elem)
    case TStruct(fields) => j.JObj? && forall k | k in fields && k in j.fields :: Fits(j.fields[k], fields[k])
  }

  predicate IsZero(v: Value) {
    match v
    case VBool(b) => !b
    case VInt(n) => n == 0
    case VString(s) => s == ""
    case VNilSlice => true
    case VSlice(_) => false
    case VStruct(fields) => forall k | k in fields :: IsZero(fields[k])
  }

  lemma {:induction false} ZeroIsZero(t: Type)
    requires WellFormed(t)
    ensures HasType(Zero(t), t) && IsZero(Zero(t))
  {
    match t
    case TStruct(fields) =>
      forall k | k in fields
        ensures HasType(Zero(fields[k]), fields[k]) && IsZero(Zero(fields[k]))
      {
        ZeroIsZero(fields[k]);
      }
    case _ =>
  }

  /** Decoding succeeds exactly on what fits, and gives a value of the type; null gives the zero value. */
  lemma {:induction false} DecodesExactly(t: Type, j: Json)
    requires WellFormed(t)
    ensures Unmarshal(t, j).Ok? <==> Fits(j, t)
    ensures Unmarshal(t, j).Ok? ==> HasType(Unmarshal(t, j).value, t)
    ensures j.JNull? ==> IsZero(Unmarshal(t, j).value)
    decreases t
  {
    ZeroIsZero(t);
    match (t, j)
    case (TSlice(elem), JArr(items)) =>
      forall i | 0 <= i < |items|
        ensures Unmarshal(elem, items[i]).Ok? <==> Fits(items[i], elem)
        ensures Unmarshal(elem, items[i]).Ok? ==> HasType(Unmarshal(elem, items[i]).value, elem)
      {
        DecodesExactly(elem, items[i]);
      }
    case (TStruct(fields), JObj(obj)) =>
      forall k | k in fields
        ensures HasType(Zero(fields[k]), fields[k])
        ensures k in obj ==> (Unmarshal(fields[k], obj[k]).Ok? <==> Fits(obj[k], fields[k]))
        ensures k in obj && Unmarshal(fields[k], obj[k]).Ok? ==> HasType(Unmarshal(fields[k], obj[k]).value, fields[k])
      {
        ZeroIsZero(fields[k]);
        if k in obj { DecodesExactly(fields[k], obj[k]); }
      }
    case _ =>
  }

  predicate WellTyped(a: Any) {
    a.Static? ==> HasType(a.v, a.t)
  }

  /**
  Decode gives a value of its own type as it is, refuses what JSON cannot encode, and takes anything
  else exactly when its JSON fits the type.
  */
  lemma DecodeExactly(t: Type, a: Any)
    requires WellFormed(t) && WellTyped(a)
    ensures a.Unencodable? ==> Decode(t, a) == Err(MarshalFailed)
    ensures a.Static? && a.t == t ==> Decode(t, a) == Ok(a.v)
    ensures !a.Unencodable? && !(a.Static? && a.t == t) ==>
      && (Decode(t, a).Ok? <==> Fits(MarshalAny(a).value, t))
      && (Decode(t, a).Err? ==> Decode(t, a).error == TypeMismatch)
    ensures Decode(t, a).Ok? ==> HasType(Decode(t, a).value, t)
    ensures a == Dynamic(GNil) ==> Decode(t, a).Ok? && IsZero(Decode(t, a).value)
  {
    ZeroIsZero(t);
    if MarshalAny(a).Some? {
      DecodesExactly(t, MarshalAny(a).value);
      if Unmarshal(t, MarshalAny(a).value).Err? { ErrorIsMismatch(t, MarshalAny(a).value); }
    }
  }

  lemma ErrorIsMismatch(t: Type, j: Json)
    requires Unmarshal(t, j).Err?
    ensures Unmarshal(t, j) == Err(TypeMismatch)
  {
  }

  /** Absent fields are zero, present ones are what they decode to. */
  lemma FieldsDecode(types: map<string, Type>, obj: map<string, Json>, k: string)
    requires WellFormed(TStruct(types)) && Fits(JObj(obj), TStruct(types)) && k in types
    ensures
      var r := Unmarshal(TStruct(types), JObj(obj));
      && r.Ok? && r.value.VStruct? && k in r.value.fields
      && (if k in obj then Ok(r.value.fields[k]) == Unmarshal(types[k], obj[k]) else IsZero(r.value.fields[k]))
  {
    DecodesExactly(TStruct(types), JObj(obj));
    ZeroIsZero(types[k]);
  }

  const INT64 := TInt(-0x8000_0000_0000_0000, 0x7FFF_FFFF_FFFF_FFFF)

  /** A hit on an integer gives its printed double, or no value at all when that leaves the type. */
  lemma HitOnInteger(t: Type, n: int)
    requires t.TInt? && WellFormed(t) && HasType(VInt(n), t)
    ensures
      var printed := PrintDouble(ToDouble(n));
      HitPath(t, VInt(n)) == if t.min <= printed <= t.max then Ok(VInt(printed)) else Err(TypeMismatch)
  {
    hide PrintDouble, ToDouble;
  }

  /** The first integer that does not survive: a hit silently gives its neighbour. */
  lemma LargeIntegerDrifts(n: int)
    requires n == EXACT + 1
    ensures MissPath(INT64, VInt(n)) == Ok(VInt(n)) && HitPath(INT64, VInt(n)) == Ok(VInt(n - 1))
  {
    hide PrintDouble, ToDouble;
    AfterLimit(n);
    HitOnInteger(INT64, n);
  }

  /** 2^56 is a double and yet changes on a hit. */
  lemma PowerOfTwoDrifts(n: int)
    requires n == 72057594037927936
    ensures ToDouble(n) == n && HitPath(INT64, VInt(n)) == Ok(VInt(n + 4))
  {
    hide PrintDouble, ToDouble;
    PowerOfTwoPrints(n);
    HitOnInteger(INT64, n);
  }

  /** The smallest int64 is a double and yet cannot be decoded any more on a hit. */
  lemma SmallestInt64Fails(n: int)
    requires n == -0x8000_0000_0000_0000
    ensures ToDouble(n) == n && HitPath(INT64, VInt(n)) == Err(TypeMismatch)
  {
    hide PrintDouble, ToDouble;
    SmallestInt64Prints(-n);
    HitOnInteger(INT64, n);
  }

  /** 72057594037927940 is not a double and yet comes back on a hit. */
  lemma NonDoubleReturns(n: int)
    requires n == 72057594037927940
    ensures ToDouble(n) != n && HitPath(INT64, VInt(n)) == Ok(VInt(n))
  {
    hide PrintDouble, ToDouble;
    NonDoubleSurvives(n);
    HitOnInteger(INT64, n);
  }

  /** TypedCache.GetMulti: every value found is decoded, and the first that fails ends the call. */
  method DecodeMulti<K(==)>(t: Type, results: map<K, Any>) returns (r: Result<map<K, Value>, DecodeError>)
    ensures r.Ok? <==> forall k | k in results :: Decode(t, results[k]).Ok?
    ensures r.Ok? ==> r.value.Keys == results.Keys && forall k | k in results :: Ok(r.value[k]) == Decode(t, results[k])
    ensures r.Err? ==> exists k | k in results :: Decode(t, results[k]) == Err(r.error)
  {
    var typed: map<K, Value> := map[];
    var todo := results.Keys;
    while todo != {}
      invariant todo <= results.Keys && typed.Keys == results.Keys - todo
      invariant forall k | k in typed :: Ok(typed[k]) == Decode(t, results[k])
      decreases todo
    {
      var k :| k in todo;
      var decoded := Decode(t, results[k]);
      if decoded.Err? {
        return Err(decoded.error);
      }
      typed := typed[k := decoded.value];
      todo := todo - {k};
    }
    r := Ok(typed);
  }
}
