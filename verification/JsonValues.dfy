/**
 JSON values, Rhai values, and the two conversions between them
 (src/lymaille/resource_module.rs, `dynamic_to_json` and `json_to_dynamic`).

 Objects are maps, so two bodies that differ only in the order of their keys are equal, as they
 are for the journal key. A JSON number keeps the three representations of serde_json: a number
 in the signed 64-bit range, an unsigned one above it, and a finite float.
 */
module JsonValues {
  import opened Wrappers

  const I64_MIN := -0x8000_0000_0000_0000
  const I64_MAX := 0x7FFF_FFFF_FFFF_FFFF
  const U64_MAX := 0xFFFF_FFFF_FFFF_FFFF

  type i64 = n: int | I64_MIN <= n <= I64_MAX
  type BigU64 = n: int | I64_MAX < n <= U64_MAX witness I64_MAX + 1

  function Pow2(e: int): real
    decreases if e < 0 then -e else e
  {
    if e == 0 then 1.0 else if e > 0 then 2.0 * Pow2(e - 1) else Pow2(e + 1) / 2.0
  }

  /** A finite float is m * 2^e for a 53-bit m; the two zeros are one. */
  predicate Scaled(r: real, m: int, e: int)
  {
    -0x20_0000_0000_0000 < m < 0x20_0000_0000_0000 && -1074 <= e <= 971 && r == m as real * Pow2(e)
  }

  ghost predicate IsDouble(r: real)
  {
    exists m, e :: Scaled(r, m, e)
  }

  type Double = r: real | IsDouble(r) witness (assert Scaled(0.0, 0, 0); 0.0)

  datatype Json =
    | Null
    | Bool(b: bool)
    | Int(n: i64)
    | Big(u: BigU64)
    | Float(r: Double)
    | Text(s: string)
    | Arr(items: seq<Json>)
    | Obj(fields: map<string, Json>)

  /** A float as Rhai carries it: finite, or one of the values JSON cannot write. */
  datatype F64 = Finite(r: Double) | NotFinite

  datatype Dynamic =
    | Unit
    | DBool(b: bool)
    | DInt(n: i64)
    | DFloat(f: F64)
    | DText(s: string)
    | DArray(items: seq<Dynamic>)
    | DMap(fields: map<string, Dynamic>)
    | Opaque  // function pointers, characters, timestamps, blobs: nothing JSON can hold

  /** `dynamic_to_json`: None when some part of the value has no JSON form. */
  function DynamicToJson(d: Dynamic): Option<Json>
  {
    match d
    case Unit => Some(Null)
    case DBool(b) => Some(Bool(b))
    case DInt(n) => Some(Int(n))
    case DFloat(Finite(r)) => Some(Float(r))
    case DFloat(NotFinite) => None
    case DText(s) => Some(Text(s))
    case DArray(items) =>
      if forall i | 0 <= i < |items| :: DynamicToJson(items[i]).Some?
      then Some(Arr(seq(|items|, i requires 0 <= i < |items| =>
                                   assert DynamicToJson(items[i]).Some?; DynamicToJson(items[i]).value)))
      else None
    case DMap(fields) =>
      if forall k | k in fields :: DynamicToJson(fields[k]).Some?
      then Some(Obj(map k | k in fields :: DynamicToJson(fields[k]).value))
      else None
    case Opaque => None
  }

  /** `u as f64` above the signed range, where floats are 2048 apart: to the nearest, ties to even. */
  function Rounded(u: BigU64): nat
  {
    var q, r := u / 2048, u % 2048;
    if r < 1024 || (r == 1024 && q % 2 == 0) then q else q + 1
  }

  lemma RoundedIsDouble(u: BigU64)
    ensures IsDouble((2048 * Rounded(u)) as real)
  {
    var q := Rounded(u);
    assert Pow2(2) == 4.0 && Pow2(4) == 16.0 && Pow2(6) == 64.0 && Pow2(8) == 256.0 && Pow2(10) == 1024.0;
    assert Pow2(11) == 2048.0 && Pow2(12) == 4096.0;
    if q < 0x20_0000_0000_0000 {
      assert Scaled((2048 * q) as real, q, 11);
    } else {
      assert q == 0x20_0000_0000_0000;
      assert Scaled((2048 * q) as real, 0x10_0000_0000_0000, 12);
    }
  }

  function AsF64(u: BigU64): Double
  {
    RoundedIsDouble(u);
    (2048 * Rounded(u)) as real
  }

  /** No multiple of 2048, which is what floats are there, lies nearer; and of two as near, the even one
      is taken. */
  lemma AsF64IsNearest(u: BigU64, other: int)
    ensures AsF64(u) == (2048 * Rounded(u)) as real
    ensures Distance(u, 2048 * Rounded(u)) <= Distance(u, 2048 * other)
    ensures Distance(u, 2048 * Rounded(u)) == 1024 ==> Rounded(u) % 2 == 0
  {
    var q, r := u / 2048, u % 2048;
    assert u == 2048 * q + r;
    if other <= q {
      assert Distance(u, 2048 * other) >= r;
    } else {
      assert Distance(u, 2048 * other) >= 2048 - r;
    }
  }

  function Distance(a: int, b: int): nat { if a < b then b - a else a - b }

  /** `json_to_dynamic`: total. */
  function JsonToDynamic(j: Json): Dynamic
  {
    match j
    case Null => Unit
    case Bool(b) => DBool(b)
    case Int(n) => DInt(n)
    case Big(u) => DFloat(Finite(AsF64(u)))
    case Float(r) => DFloat(Finite(r))
    case Text(s) => DText(s)
    case Arr(items) => DArray(seq(|items|, i requires 0 <= i < |items| => JsonToDynamic(items[i])))
    case Obj(fields) => DMap(map k | k in fields :: JsonToDynamic(fields[k]))
  }

  /** No number of the value lies above the signed 64-bit range. */
  predicate NoBig(j: Json)
  {
    match j
    case Big(_) => false
    case Arr(items) => forall i | 0 <= i < |items| :: NoBig(items[i])
    case Obj(fields) => forall k | k in fields :: NoBig(fields[k])
    case _ => true
  }

  /** What a JSON value becomes after a trip through Rhai: numbers above the signed range come
      back as floats, everything else unchanged. */
  function Floated(j: Json): Json
  {
    match j
    case Big(u) => Float(AsF64(u))
    case Arr(items) => Arr(seq(|items|, i requires 0 <= i < |items| => Floated(items[i])))
    case Obj(fields) => Obj(map k | k in fields :: Floated(fields[k]))
    case _ => j
  }

  lemma {:induction false} JsonTrip(j: Json)
    ensures DynamicToJson(JsonToDynamic(j)) == Some(Floated(j))
  {
    match j
    case Arr(items) =>
      var d := JsonToDynamic(j);
      forall i | 0 <= i < |items|
        ensures DynamicToJson(d.items[i]) == Some(Floated(items[i]))
      {
        JsonTrip(items[i]);
      }
      assert DynamicToJson(d).value.items == Floated(j).items;
    case Obj(fields) =>
      var d := JsonToDynamic(j);
      forall k | k in fields
        ensures DynamicToJson(d.fields[k]) == Some(Floated(fields[k]))
      {
        JsonTrip(fields[k]);
      }
      assert DynamicToJson(d).value.fields == Floated(j).fields;
    case _ =>
  }

  lemma {:induction false} FloatedIdentity(j: Json)
    ensures Floated(j) == j <==> NoBig(j)
  {
    match j
    case Arr(items) =>
      forall i | 0 <= i < |items| ensures Floated(items[i]) == items[i] <==> NoBig(items[i]) {
        FloatedIdentity(items[i]);
      }
      var f := Floated(j).items;
      assert |f| == |items| && forall i | 0 <= i < |items| :: f[i] == Floated(items[i]);
      if NoBig(j) {
        assert f == items;
      } else {
        var i :| 0 <= i < |items| && !NoBig(items[i]);
        assert f[i] != items[i];
      }
    case Obj(fields) =>
      forall k | k in fields ensures Floated(fields[k]) == fields[k] <==> NoBig(fields[k]) {
        FloatedIdentity(fields[k]);
      }
      var f := Floated(j).fields;
      if NoBig(j) {
        assert f == fields;
      } else {
        var k :| k in fields && !NoBig(fields[k]);
        assert f[k] != fields[k];
      }
    case _ =>
  }

  /** What a script sees of a value is the value: of the same kind, and the same inside. */
  lemma ScriptsSeeTheValue(j: Json)
    ensures var d := JsonToDynamic(j);
            && (j == Null <==> d == Unit)
            && (forall b :: j == Bool(b) <==> d == DBool(b))
            && (forall n :: j == Int(n) <==> d == DInt(n))
            && (forall s :: j == Text(s) <==> d == DText(s))
            && (j.Float? ==> d == DFloat(Finite(j.r)))
            && (j.Arr? <==> d.DArray?) && (j.Obj? <==> d.DMap?)
            && (j.Arr? ==> |d.items| == |j.items| &&
                           forall i | 0 <= i < |j.items| :: d.items[i] == JsonToDynamic(j.items[i]))
            && (j.Obj? ==> d.fields.Keys == j.fields.Keys &&
                           forall k | k in j.fields :: d.fields[k] == JsonToDynamic(j.fields[k]))
  {
  }

  /** JSON to Rhai and back is the identity exactly on the values without a number above the
      signed 64-bit range; elsewhere the script sees, and writes back, a float. */
  lemma JsonRoundTrip(j: Json)
    ensures DynamicToJson(JsonToDynamic(j)) == Some(j) <==> NoBig(j)
  {
    JsonTrip(j);
    FloatedIdentity(j);
  }

  /** Rhai to JSON and back is the identity whenever the conversion succeeds. */
  lemma {:induction false} DynamicRoundTrip(d: Dynamic)
    requires DynamicToJson(d).Some?
    ensures JsonToDynamic(DynamicToJson(d).value) == d
    ensures NoBig(DynamicToJson(d).value)
  {
    match d
    case DArray(items) =>
      var j := DynamicToJson(d).value;
      forall i | 0 <= i < |items|
        ensures JsonToDynamic(j.items[i]) == items[i] && NoBig(j.items[i])
      {
        assert DynamicToJson(items[i]).Some?;
        DynamicRoundTrip(items[i]);
      }
      assert JsonToDynamic(j).items == items;
    case DMap(fields) =>
      var j := DynamicToJson(d).value;
      forall k | k in fields
        ensures JsonToDynamic(j.fields[k]) == fields[k] && NoBig(j.fields[k])
      {
        DynamicRoundTrip(fields[k]);
      }
      assert JsonToDynamic(j).fields == fields;
    case _ =>
  }
}
