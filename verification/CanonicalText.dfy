/**
 The canonical text of a JSON value, object keys sorted (src/lymaille/store/write_journal.rs,
 `canonical`), what it determines, and its length in bytes.
 */
module CanonicalText {
  import opened JsonValues

  /** The text serde_json gives a finite float. */
  type FloatText = Double -> string

  predicate NumberChar(c: char)
  {
    '0' <= c <= '9' || c == '-' || c == '+' || c == '.' || c == 'e'
  }

  /** Floats print as number text with a point or an exponent, distinct ones differently. */
  ghost predicate FloatsPrint(float: FloatText)
  {
    && (forall r :: float(r) != "" && forall i | 0 <= i < |float(r)| :: NumberChar(float(r)[i]))
    && (forall r :: '.' in float(r) || 'e' in float(r))
    && (forall r, q :: float(r) == float(q) ==> r == q)
  }

  // ---------------------------------------------------------------------------------------------
  // Scalars
  // ---------------------------------------------------------------------------------------------

  function Digit(d: nat): char
    requires d < 10
  {
    ('0' as int + d) as char
  }

  function Decimal(n: nat): string
  {
    if n < 10 then [Digit(n)] else Decimal(n / 10) + [Digit(n % 10)]
  }

  function Whole(n: int): string
  {
    if n < 0 then "-" + Decimal(-n) else Decimal(n)
  }

  function HexDigit(d: nat): char
    requires d < 16
  {
    if d < 10 then Digit(d) else ('a' as int + d - 10) as char
  }

  /** Quotes, backslashes and control characters are escaped, nothing else. */
  function EscapeChar(c: char): string
  {
    if c == '\"' then "\\\""
    else if c == '\\' then "\\\\"
    else if c as int == 8 then "\\b"
    else if c as int == 9 then "\\t"
    else if c as int == 10 then "\\n"
    else if c as int == 12 then "\\f"
    else if c as int == 13 then "\\r"
    else if c as int < 32 then "\\u00" + [HexDigit(c as int / 16), HexDigit(c as int % 16)]
    else [c]
  }

  function Escape(s: string): string
  {
    if s == "" then "" else EscapeChar(s[0]) + Escape(s[1..])
  }

  function Quoted(s: string): string
  {
    "\"" + Escape(s) + "\""
  }

  function Scalar(float: FloatText, j: Json): string
    requires !j.Arr? && !j.Obj?
  {
    match j
    case Null => "null"
    case Bool(b) => if b then "true" else "false"
    case Int(n) => Whole(n)
    case Big(u) => Whole(u)
    case Float(r) => float(r)
    case Text(s) => Quoted(s)
  }

  // ---------------------------------------------------------------------------------------------
  // Sorted keys
  // ---------------------------------------------------------------------------------------------

  predicate Below(a: string, b: string)
  {
    a == "" || (b != "" && (a[0] < b[0] || (a[0] == b[0] && Below(a[1..], b[1..]))))
  }

  lemma {:induction false} BelowIsTotal(a: string, b: string)
    ensures Below(a, b) || Below(b, a)
  {
    if a != "" && b != "" {
      BelowIsTotal(a[1..], b[1..]);
    }
  }

  lemma {:induction false} BelowIsTransitive(a: string, b: string, c: string)
    requires Below(a, b) && Below(b, c)
    ensures Below(a, c)
  {
    if a != "" && b != "" && c != "" && a[0] == b[0] == c[0] {
      BelowIsTransitive(a[1..], b[1..], c[1..]);
    }
  }

  lemma {:induction false} BelowIsAntisymmetric(a: string, b: string)
    requires Below(a, b) && Below(b, a)
    ensures a == b
  {
    if a != "" && b != "" {
      BelowIsAntisymmetric(a[1..], b[1..]);
      assert a == [a[0]] + a[1..] && b == [b[0]] + b[1..];
    }
  }

  /** The order of `str`: of two texts, the one that is the other's beginning, or has the smaller
      character where they first differ, comes first. */
  lemma {:induction false} BelowIsByCharacter(a: string, b: string)
    ensures Below(a, b) <==>
            a <= b || exists i | 0 <= i < |a| && i < |b| :: a[..i] == b[..i] && a[i] < b[i]
  {
    if a != "" && b != "" {
      BelowIsByCharacter(a[1..], b[1..]);
      forall i | 0 < i < |a| && i < |b| && a[..i] == b[..i] ensures a[0] == b[0] {
        assert a[..i][0] == a[0];
        assert b[..i][0] == b[0];
      }
      if a[0] < b[0] {
        assert a[..0] == b[..0];
      } else if a[0] == b[0] {
        assert a[1..] <= b[1..] <==> a <= b;
        if i: nat :| i < |a[1..]| && i < |b[1..]| && a[1..][..i] == b[1..][..i] && a[1..][i] < b[1..][i] {
          assert a[..i + 1] == [a[0]] + a[1..][..i] && b[..i + 1] == [b[0]] + b[1..][..i];
          assert a[i + 1] < b[i + 1];
        }
        if i: nat :| i < |a| && i < |b| && a[..i] == b[..i] && a[i] < b[i] {
          assert a[1..][..i - 1] == a[..i][1..] && b[1..][..i - 1] == b[..i][1..];
          assert a[1..][i - 1] < b[1..][i - 1];
        }
      }
    }
  }

  predicate IsLeast(keys: set<string>, k: string)
  {
    k in keys && forall j | j in keys :: Below(k, j)
  }

  lemma {:induction false} LeastExists(keys: set<string>)
    requires keys != {}
    ensures exists k :: IsLeast(keys, k)
    decreases keys
  {
    var k :| k in keys;
    var rest := keys - {k};
    BelowIsTotal(k, k);
    if rest == {} {
      assert keys == {k};
      assert IsLeast(keys, k);
    } else {
      LeastExists(rest);
      var l :| IsLeast(rest, l);
      BelowIsTotal(k, l);
      if Below(k, l) {
        forall j | j in keys ensures Below(k, j) {
          if j != k {
            BelowIsTransitive(k, l, j);
          }
        }
        assert IsLeast(keys, k);
      } else {
        assert IsLeast(keys, l);
      }
    }
  }

  lemma LeastIsUnique(keys: set<string>)
    ensures forall k, l | IsLeast(keys, k) && IsLeast(keys, l) :: k == l
  {
    forall k, l | IsLeast(keys, k) && IsLeast(keys, l) ensures k == l {
      BelowIsAntisymmetric(k, l);
    }
  }

  /** `keys.sort()`. */
  function SortedKeys(keys: set<string>): (r: seq<string>)
    ensures forall k :: k in r <==> k in keys
    ensures forall i, j | 0 <= i < j < |r| :: Below(r[i], r[j]) && r[i] != r[j]
    decreases keys
  {
    if keys == {} then []
    else
      LeastExists(keys);
      LeastIsUnique(keys);
      var k :| k in keys && IsLeast(keys, k);
      [k] + SortedKeys(keys - {k})
  }

  // ---------------------------------------------------------------------------------------------
  // Canonical text
  // ---------------------------------------------------------------------------------------------

  function Canonical(float: FloatText, j: Json): string
    decreases j, 1, 0
  {
    match j
    case Arr(items) => "[" + (if items == [] then "]" else Canonical(float, items[0]) + MoreItems(float, j, 1))
    case Obj(fields) =>
      var keys := SortedKeys(fields.Keys);
      "{" + if keys == [] then "}" else Field(float, j, keys[0]) + MoreFields(float, j, keys[1..])
    case _ => Scalar(float, j)
  }

  /** What follows the first `from` items. */
  function MoreItems(float: FloatText, j: Json, from: nat): string
    requires j.Arr? && from <= |j.items|
    decreases j, 0, |j.items| - from
  {
    if from == |j.items| then "]" else "," + (Canonical(float, j.items[from]) + MoreItems(float, j, from + 1))
  }

  function Field(float: FloatText, j: Json, key: string): string
    requires j.Obj? && key in j.fields
    decreases j, 0, 0
  {
    Quoted(key) + (":" + Canonical(float, j.fields[key]))
  }

  /** The fields under `keys`, after a first one. */
  function MoreFields(float: FloatText, j: Json, keys: seq<string>): string
    requires j.Obj? && forall k | k in keys :: k in j.fields
    decreases j, 0, |keys| + 1
  {
    if keys == [] then "}" else "," + (Field(float, j, keys[0]) + MoreFields(float, j, keys[1..]))
  }

  /** What follows the opening bracket. */
  function Items(float: FloatText, j: Json): string
    requires j.Arr?
  {
    if j.items == [] then "]" else Canonical(float, j.items[0]) + MoreItems(float, j, 1)
  }

  /** What follows the opening brace. */
  function Fields(float: FloatText, j: Json, keys: seq<string>): string
    requires j.Obj? && forall k | k in keys :: k in j.fields
  {
    if keys == [] then "}" else Field(float, j, keys[0]) + MoreFields(float, j, keys[1..])
  }

  lemma Regroup(a: string, b: string, c: string)
    ensures (a + b) + c == a + (b + c)
  {
  }

  /** What is left to write of a list when item `index` comes next. */
  function ItemsLeft(float: FloatText, j: Json, index: nat): string
    requires j.Arr? && index <= |j.items|
  {
    if index == 0 then Items(float, j) else MoreItems(float, j, index)
  }

  lemma OneItem(float: FloatText, j: Json, index: nat, out: string, before: string)
    requires j.Arr? && index < |j.items| && before == if index > 0 then out + "," else out
    ensures out + ItemsLeft(float, j, index) ==
            before + Canonical(float, j.items[index]) + ItemsLeft(float, j, index + 1)
  {
    var item, rest := Canonical(float, j.items[index]), MoreItems(float, j, index + 1);
    if index > 0 {
      Regroup(out, ",", item + rest);
    }
    Regroup(before, item, rest);
  }

  lemma NoItemsLeft(float: FloatText, j: Json)
    requires j.Arr?
    ensures ItemsLeft(float, j, |j.items|) == "]"
  {
  }

  function FieldsLeft(float: FloatText, j: Json, keys: seq<string>, index: nat): string
    requires j.Obj? && index <= |keys| && forall k | k in keys :: k in j.fields
  {
    if index == 0 then Fields(float, j, keys) else MoreFields(float, j, keys[index..])
  }

  lemma OneField(float: FloatText, j: Json, keys: seq<string>, index: nat, out: string, before: string)
    requires j.Obj? && index < |keys| && forall k | k in keys :: k in j.fields
    requires before == if index > 0 then out + "," else out
    ensures out + FieldsLeft(float, j, keys, index) ==
            before + Quoted(keys[index]) + ":" + Canonical(float, j.fields[keys[index]])
            + FieldsLeft(float, j, keys, index + 1)
  {
    var key, rest := keys[index], MoreFields(float, j, keys[index + 1..]);
    var item, field := Canonical(float, j.fields[key]), Field(float, j, key);
    Regroup(before, Quoted(key), ":" + item);
    Regroup(before + Quoted(key), ":", item);
    assert before + field == before + Quoted(key) + ":" + item;
    if index > 0 {
      assert keys[index..][1..] == keys[index + 1..];
      Regroup(out, ",", field + rest);
    }
    Regroup(before, field, rest);
  }

  lemma NoFieldsLeft(float: FloatText, j: Json, keys: seq<string>)
    requires j.Obj? && forall k | k in keys :: k in j.fields
    ensures FieldsLeft(float, j, keys, |keys|) == "}"
  {
  }

  /** `canonical`. */
  method WriteCanonical(float: FloatText, value: Json) returns (out: string)
    ensures out == Canonical(float, value)
    decreases value, 1
  {
    match value {
      case Obj(_) =>
        out := WriteObject(float, value, SortedKeys(value.fields.Keys));
      case Arr(_) =>
        out := WriteArray(float, value);
      case _ =>
        out := Scalar(float, value);
    }
  }

  /** The fields under the sorted `keys`. */
  method WriteObject(float: FloatText, value: Json, keys: seq<string>) returns (out: string)
    requires value.Obj? && forall k | k in keys :: k in value.fields
    ensures out == "{" + Fields(float, value, keys)
    decreases value, 0
  {
    out := "{";
    for index := 0 to |keys|
      invariant out + FieldsLeft(float, value, keys, index) == "{" + Fields(float, value, keys)
    {
      ghost var was := out;
      if index > 0 {
        out := out + ",";
      }
      OneField(float, value, keys, index, was, out);
      out := out + Quoted(keys[index]) + ":";
      var item := WriteCanonical(float, value.fields[keys[index]]);
      out := out + item;
    }
    NoFieldsLeft(float, value, keys);
    out := out + "}";
  }

  method WriteArray(float: FloatText, value: Json) returns (out: string)
    requires value.Arr?
    ensures out == Canonical(float, value)
    decreases value, 0
  {
    out := "[";
    for index := 0 to |value.items|
      invariant out + ItemsLeft(float, value, index) == Canonical(float, value)
    {
      ghost var was := out;
      if index > 0 {
        out := out + ",";
      }
      OneItem(float, value, index, was, out);
      var item := WriteCanonical(float, value.items[index]);
      out := out + item;
    }
    NoItemsLeft(float, value);
    out := out + "]";
  }

  // ---------------------------------------------------------------------------------------------
  // The text determines the value
  // ---------------------------------------------------------------------------------------------

  /** What may follow a value: nothing, or a delimiter. */
  predicate Stops(s: string)
  {
    s == "" || s[0] == ',' || s[0] == ']' || s[0] == '}'
  }

  lemma Cut(a: string, b: string, x: string, y: string)
    requires a + x == b + y && |a| == |b|
    ensures a == b && x == y
  {
    assert a == (a + x)[..|a|] && b == (b + y)[..|b|];
    assert x == (a + x)[|a|..] && y == (b + y)[|b|..];
  }

  /** After a common opening. */
  lemma CutOpening(opening: string, s: string, t: string, x: string, y: string)
    requires opening + s + x == opening + t + y
    ensures s + x == t + y
  {
    Regroup(opening, s, x);
    Regroup(opening, t, y);
    Cut(opening, opening, s + x, t + y);
  }

  /** A number text before a stop ends at the first character that is not a number's. */
  lemma NumberEnds(a: string, x: string)
    requires Stops(x) && forall i | 0 <= i < |a| :: NumberChar(a[i])
    ensures forall i | 0 <= i < |a| :: NumberChar((a + x)[i])
    ensures |a| < |a + x| ==> !NumberChar((a + x)[|a|])
  {
  }

  /** Two number texts before a stop are cut at the same place. */
  lemma NumbersCut(a: string, b: string, x: string, y: string)
    requires a + x == b + y && Stops(x) && Stops(y)
    requires (forall i | 0 <= i < |a| :: NumberChar(a[i])) && (forall i | 0 <= i < |b| :: NumberChar(b[i]))
    ensures a == b && x == y
  {
    NumberEnds(a, x);
    NumberEnds(b, y);
    assert |a| == |b|;
    Cut(a, b, x, y);
  }

  function DigitsValue(s: string): nat
    requires forall i | 0 <= i < |s| :: '0' <= s[i] <= '9'
  {
    if s == "" then 0 else 10 * DigitsValue(s[..|s| - 1]) + (s[|s| - 1] as int - '0' as int)
  }

  lemma {:induction false} DecimalReadsBack(n: nat)
    ensures Decimal(n) != "" && forall i | 0 <= i < |Decimal(n)| :: '0' <= Decimal(n)[i] <= '9'
    ensures DigitsValue(Decimal(n)) == n
    decreases n
  {
    if n >= 10 {
      DecimalReadsBack(n / 10);
      assert Decimal(n)[..|Decimal(n)| - 1] == Decimal(n / 10);
    } else {
      assert Decimal(n)[..0] == "";
    }
  }

  lemma WholeIsNumber(n: int)
    ensures Whole(n) != "" && forall i | 0 <= i < |Whole(n)| :: NumberChar(Whole(n)[i])
    ensures '.' !in Whole(n) && 'e' !in Whole(n)
  {
    DecimalReadsBack(if n < 0 then -n else n);
  }

  lemma MinusIsNegative(n: int)
    ensures Whole(n) != "" && (Whole(n)[0] == '-' <==> n < 0)
  {
    DecimalReadsBack(if n < 0 then -n else n);
  }

  lemma WholeIsInjective(n: int, m: int)
    requires Whole(n) == Whole(m)
    ensures n == m
  {
    MinusIsNegative(n);
    MinusIsNegative(m);
    if n < 0 {
      Cut("-", "-", Decimal(-n), Decimal(-m));
      DecimalReadsBack(-n);
      DecimalReadsBack(-m);
    } else {
      DecimalReadsBack(n);
      DecimalReadsBack(m);
    }
  }

  /** The second character of an escape tells which it is. */
  lemma EscapesCut(c: char, d: char, x: string, y: string)
    requires EscapeChar(c) + x == EscapeChar(d) + y
    ensures c == d && x == y
  {
    var a, b := EscapeChar(c), EscapeChar(d);
    assert a[0] == (a + x)[0] == (b + y)[0] == b[0];
    if |a| == 1 || |b| == 1 {
      assert c == d;
    } else {
      assert a[1] == (a + x)[1] == (b + y)[1] == b[1];
      assert |a| == |b|;
    }
    Cut(a, b, x, y);
    if |a| == 6 {
      assert a[4] == b[4] && a[5] == b[5];
      assert c as int == c as int / 16 * 16 + c as int % 16;
      assert d as int == d as int / 16 * 16 + d as int % 16;
    }
  }

  lemma EscapeOpens(s: string, x: string)
    ensures (Escape(s) + "\"" + x)[0] == '\"' <==> s == ""
  {
    if s != "" {
      assert EscapeChar(s[0])[0] != '\"';
      assert (Escape(s) + "\"" + x)[0] == Escape(s)[0];
    }
  }

  lemma EscapeSplits(s: string, x: string)
    requires s != ""
    ensures Escape(s) + "\"" + x == EscapeChar(s[0]) + (Escape(s[1..]) + "\"" + x)
  {
  }

  lemma {:induction false} EscapedCut(s: string, t: string, x: string, y: string)
    requires Escape(s) + "\"" + x == Escape(t) + "\"" + y
    ensures s == t && x == y
    decreases |s|
  {
    EscapeOpens(s, x);
    EscapeOpens(t, y);
    if s == "" {
      CutOpening("", "\"", "\"", x, y);
      Cut("\"", "\"", x, y);
    } else {
      EscapeSplits(s, x);
      EscapeSplits(t, y);
      EscapesCut(s[0], t[0], Escape(s[1..]) + "\"" + x, Escape(t[1..]) + "\"" + y);
      EscapedCut(s[1..], t[1..], x, y);
      assert s == [s[0]] + s[1..] && t == [t[0]] + t[1..];
    }
  }

  lemma QuotedCut(s: string, t: string, x: string, y: string)
    requires Quoted(s) + x == Quoted(t) + y
    ensures s == t && x == y
  {
    Regroup("\"", Escape(s), "\"");
    Regroup("\"", Escape(t), "\"");
    CutOpening("\"", Escape(s) + "\"", Escape(t) + "\"", x, y);
    EscapedCut(s, t, x, y);
  }

  predicate IsNumber(j: Json) { j.Int? || j.Big? || j.Float? }

  /** The first character of a canonical text, numbers aside, is its kind's. */
  function Opening(j: Json): char
    requires !IsNumber(j)
  {
    match j
    case Null => 'n'
    case Bool(b) => if b then 't' else 'f'
    case Text(_) => '\"'
    case Arr(_) => '['
    case Obj(_) => '{'
  }

  lemma OpeningIsFirst(float: FloatText, j: Json)
    requires FloatsPrint(float)
    ensures Canonical(float, j) != ""
    ensures if IsNumber(j) then NumberChar(Canonical(float, j)[0]) else Canonical(float, j)[0] == Opening(j)
  {
    match j
    case Int(n) => WholeIsNumber(n);
    case Big(u) => WholeIsNumber(u);
    case _ =>
  }

  lemma NumberText(float: FloatText, j: Json)
    requires FloatsPrint(float) && IsNumber(j)
    ensures forall i | 0 <= i < |Canonical(float, j)| :: NumberChar(Canonical(float, j)[i])
    ensures j.Float? <==> '.' in Canonical(float, j) || 'e' in Canonical(float, j)
  {
    match j
    case Int(n) => WholeIsNumber(n);
    case Big(u) => WholeIsNumber(u);
    case Float(r) =>
  }

  lemma NumbersUnambiguous(float: FloatText, a: Json, b: Json, x: string, y: string)
    requires FloatsPrint(float) && IsNumber(a) && IsNumber(b) && Stops(x) && Stops(y)
    requires Canonical(float, a) + x == Canonical(float, b) + y
    ensures a == b && x == y
  {
    NumberText(float, a);
    NumberText(float, b);
    NumbersCut(Canonical(float, a), Canonical(float, b), x, y);
    if !a.Float? {
      WholeIsInjective(if a.Int? then a.n else a.u, if b.Int? then b.n else b.u);
    }
  }

  /** Two values whose texts agree up to a stop are one value, cut at the same place. */
  lemma {:induction false} Unambiguous(float: FloatText, a: Json, b: Json, x: string, y: string)
    requires FloatsPrint(float) && Stops(x) && Stops(y)
    requires Canonical(float, a) + x == Canonical(float, b) + y
    ensures a == b && x == y
    decreases a, 1, 0
  {
    var s, t := Canonical(float, a), Canonical(float, b);
    OpeningIsFirst(float, a);
    OpeningIsFirst(float, b);
    assert s[0] == (s + x)[0] == (t + y)[0] == t[0];
    if IsNumber(a) || IsNumber(b) {
      NumbersUnambiguous(float, a, b, x, y);
    } else {
      assert Opening(a) == Opening(b);
      match a
      case Text(u) => QuotedCut(u, b.s, x, y);
      case Arr(_) => ArraysUnambiguous(float, a, b, x, y);
      case Obj(_) => ObjectsUnambiguous(float, a, b, x, y);
      case _ => Cut(s, t, x, y);
    }
  }

  /** A list closes at once exactly when it is empty. */
  lemma EmptyCloses(float: FloatText, j: Json, x: string)
    requires FloatsPrint(float) && j.Arr?
    ensures (Items(float, j) + x)[0] == ']' <==> j.items == []
  {
    if j.items != [] {
      OpeningIsFirst(float, j.items[0]);
      assert (Items(float, j) + x)[0] == Canonical(float, j.items[0])[0];
    }
  }

  lemma {:induction false} ArraysUnambiguous(float: FloatText, a: Json, b: Json, x: string, y: string)
    requires FloatsPrint(float) && Stops(x) && Stops(y) && a.Arr? && b.Arr?
    requires Canonical(float, a) + x == Canonical(float, b) + y
    ensures a == b && x == y
    decreases a, 0, |a.items| + 1
  {
    CutOpening("[", Items(float, a), Items(float, b), x, y);
    EmptyCloses(float, a, x);
    EmptyCloses(float, b, y);
    if a.items == [] {
      Cut("]", "]", x, y);
    } else {
      var u, v := MoreItems(float, a, 1), MoreItems(float, b, 1);
      Regroup(Canonical(float, a.items[0]), u, x);
      Regroup(Canonical(float, b.items[0]), v, y);
      Unambiguous(float, a.items[0], b.items[0], u + x, v + y);
      ItemsUnambiguous(float, a, b, 1, x, y);
      assert a.items == [a.items[0]] + a.items[1..] && b.items == [b.items[0]] + b.items[1..];
    }
  }

  lemma MoreItemsStop(float: FloatText, j: Json, from: nat, x: string)
    requires j.Arr? && from <= |j.items|
    ensures Stops(MoreItems(float, j, from) + x)
    ensures (MoreItems(float, j, from) + x)[0] == ']' <==> from == |j.items|
  {
    assert (MoreItems(float, j, from) + x)[0] == MoreItems(float, j, from)[0];
  }

  lemma MoreItemsSplit(float: FloatText, j: Json, from: nat, x: string)
    requires j.Arr? && from < |j.items|
    ensures MoreItems(float, j, from) + x ==
            "," + (Canonical(float, j.items[from]) + (MoreItems(float, j, from + 1) + x))
  {
    var item, rest := Canonical(float, j.items[from]), MoreItems(float, j, from + 1);
    Regroup(",", item + rest, x);
    Regroup(item, rest, x);
  }

  lemma SuffixesAgree(a: seq<Json>, b: seq<Json>, from: nat)
    requires from < |a| == |b| && a[from] == b[from] && a[from + 1..] == b[from + 1..]
    ensures a[from..] == b[from..]
  {
    assert a[from..] == [a[from]] + a[from + 1..];
    assert b[from..] == [b[from]] + b[from + 1..];
  }

  lemma MoreItemsCut(float: FloatText, a: Json, b: Json, from: nat, x: string, y: string)
    requires a.Arr? && b.Arr? && from < |a.items| && from < |b.items|
    requires MoreItems(float, a, from) + x == MoreItems(float, b, from) + y
    ensures Canonical(float, a.items[from]) + (MoreItems(float, a, from + 1) + x) ==
            Canonical(float, b.items[from]) + (MoreItems(float, b, from + 1) + y)
  {
    MoreItemsSplit(float, a, from, x);
    MoreItemsSplit(float, b, from, y);
    Cut(",", ",", Canonical(float, a.items[from]) + (MoreItems(float, a, from + 1) + x),
        Canonical(float, b.items[from]) + (MoreItems(float, b, from + 1) + y));
  }

  lemma {:induction false} ItemsUnambiguous(float: FloatText, a: Json, b: Json, from: nat, x: string, y: string)
    requires FloatsPrint(float) && Stops(x) && Stops(y) && a.Arr? && b.Arr? && from <= |a.items| && from <= |b.items|
    requires MoreItems(float, a, from) + x == MoreItems(float, b, from) + y
    ensures |a.items| == |b.items| && a.items[from..] == b.items[from..] && x == y
    decreases a, 0, |a.items| - from
  {
    MoreItemsStop(float, a, from, x);
    MoreItemsStop(float, b, from, y);
    if from == |a.items| {
      Cut("]", "]", x, y);
    } else {
      var u, v := MoreItems(float, a, from + 1) + x, MoreItems(float, b, from + 1) + y;
      MoreItemsCut(float, a, b, from, x, y);
      MoreItemsStop(float, a, from + 1, x);
      MoreItemsStop(float, b, from + 1, y);
      Unambiguous(float, a.items[from], b.items[from], u, v);
      ItemsUnambiguous(float, a, b, from + 1, x, y);
      SuffixesAgree(a.items, b.items, from);
    }
  }

  lemma {:induction false} FieldUnambiguous(float: FloatText, a: Json, b: Json, k: string, l: string, x: string,
                                            y: string)
    requires FloatsPrint(float) && Stops(x) && Stops(y) && a.Obj? && b.Obj? && k in a.fields && l in b.fields
    requires Field(float, a, k) + x == Field(float, b, l) + y
    ensures k == l && a.fields[k] == b.fields[l] && x == y
    decreases a, 0, 0
  {
    var s, t := Canonical(float, a.fields[k]), Canonical(float, b.fields[l]);
    Regroup(Quoted(k), ":" + s, x);
    Regroup(Quoted(l), ":" + t, y);
    QuotedCut(k, l, ":" + s + x, ":" + t + y);
    CutOpening(":", s, t, x, y);
    Unambiguous(float, a.fields[k], b.fields[l], x, y);
  }

  lemma MoreFieldsStop(float: FloatText, j: Json, keys: seq<string>, x: string)
    requires j.Obj? && forall k | k in keys :: k in j.fields
    ensures Stops(MoreFields(float, j, keys) + x)
    ensures (MoreFields(float, j, keys) + x)[0] == '}' <==> keys == []
  {
    assert (MoreFields(float, j, keys) + x)[0] == MoreFields(float, j, keys)[0];
  }

  lemma {:induction false} FieldsUnambiguous(float: FloatText, a: Json, b: Json, ks: seq<string>, ls: seq<string>,
                                             x: string, y: string)
    requires FloatsPrint(float) && Stops(x) && Stops(y) && a.Obj? && b.Obj?
    requires (forall k | k in ks :: k in a.fields) && (forall l | l in ls :: l in b.fields)
    requires MoreFields(float, a, ks) + x == MoreFields(float, b, ls) + y
    ensures ks == ls && (forall k | k in ks :: a.fields[k] == b.fields[k]) && x == y
    decreases a, 0, |ks| + 1
  {
    MoreFieldsStop(float, a, ks, x);
    MoreFieldsStop(float, b, ls, y);
    if ks == [] {
      Cut("}", "}", x, y);
    } else {
      var u, v := MoreFields(float, a, ks[1..]), MoreFields(float, b, ls[1..]);
      var s, t := Field(float, a, ks[0]), Field(float, b, ls[0]);
      CutOpening(",", s + u, t + v, x, y);
      Regroup(s, u, x);
      Regroup(t, v, y);
      MoreFieldsStop(float, a, ks[1..], x);
      MoreFieldsStop(float, b, ls[1..], y);
      FieldUnambiguous(float, a, b, ks[0], ls[0], u + x, v + y);
      FieldsUnambiguous(float, a, b, ks[1..], ls[1..], x, y);
      assert ks == [ks[0]] + ks[1..] && ls == [ls[0]] + ls[1..];
    }
  }

  lemma EmptyBraceCloses(float: FloatText, j: Json, keys: seq<string>, x: string)
    requires j.Obj? && forall k | k in keys :: k in j.fields
    ensures (Fields(float, j, keys) + x)[0] == '}' <==> keys == []
  {
    if keys != [] {
      assert (Fields(float, j, keys) + x)[0] == Quoted(keys[0])[0];
    }
  }

  lemma {:induction false} AllFieldsUnambiguous(float: FloatText, a: Json, b: Json, ks: seq<string>, ls: seq<string>,
                                                x: string, y: string)
    requires FloatsPrint(float) && Stops(x) && Stops(y) && a.Obj? && b.Obj?
    requires (forall k | k in ks :: k in a.fields) && (forall l | l in ls :: l in b.fields)
    requires Fields(float, a, ks) + x == Fields(float, b, ls) + y
    ensures ks == ls && (forall k | k in ks :: a.fields[k] == b.fields[k]) && x == y
    decreases a, 0, |ks| + 1
  {
    EmptyBraceCloses(float, a, ks, x);
    EmptyBraceCloses(float, b, ls, y);
    if ks == [] {
      Cut("}", "}", x, y);
    } else {
      var u, v := MoreFields(float, a, ks[1..]), MoreFields(float, b, ls[1..]);
      Regroup(Field(float, a, ks[0]), u, x);
      Regroup(Field(float, b, ls[0]), v, y);
      MoreFieldsStop(float, a, ks[1..], x);
      MoreFieldsStop(float, b, ls[1..], y);
      FieldUnambiguous(float, a, b, ks[0], ls[0], u + x, v + y);
      FieldsUnambiguous(float, a, b, ks[1..], ls[1..], x, y);
      assert ks == [ks[0]] + ks[1..] && ls == [ls[0]] + ls[1..];
    }
  }

  lemma SameFields(f: map<string, Json>, g: map<string, Json>, keys: seq<string>)
    requires (forall k :: k in keys <==> k in f) && (forall k :: k in keys <==> k in g)
    requires forall k | k in keys :: f[k] == g[k]
    ensures f == g
  {
    assert f.Keys == g.Keys;
  }

  lemma BraceOpens(float: FloatText, j: Json)
    requires j.Obj?
    ensures forall k | k in SortedKeys(j.fields.Keys) :: k in j.fields
    ensures Canonical(float, j) == "{" + Fields(float, j, SortedKeys(j.fields.Keys))
  {
  }

  lemma {:induction false} ObjectsUnambiguous(float: FloatText, a: Json, b: Json, x: string, y: string)
    requires FloatsPrint(float) && Stops(x) && Stops(y) && a.Obj? && b.Obj?
    requires Canonical(float, a) + x == Canonical(float, b) + y
    ensures a == b && x == y
    decreases a, 0, |SortedKeys(a.fields.Keys)| + 2
  {
    var ks, ls := SortedKeys(a.fields.Keys), SortedKeys(b.fields.Keys);
    BraceOpens(float, a);
    BraceOpens(float, b);
    CutOpening("{", Fields(float, a, ks), Fields(float, b, ls), x, y);
    AllFieldsUnambiguous(float, a, b, ks, ls, x, y);
    SameFields(a.fields, b.fields, ks);
  }

  /** Two values have one canonical text exactly when they are equal, whatever the order in which
      their keys were written. */
  lemma CanonicalIsInjective(float: FloatText, a: Json, b: Json)
    requires FloatsPrint(float)
    ensures Canonical(float, a) == Canonical(float, b) <==> a == b
  {
    if Canonical(float, a) == Canonical(float, b) {
      assert Canonical(float, a) + "" == Canonical(float, b) + "";
      Unambiguous(float, a, b, "", "");
    }
  }

  // ---------------------------------------------------------------------------------------------
  // Length
  // ---------------------------------------------------------------------------------------------

  /** The bytes of a character in UTF-8. */
  function CharBytes(c: char): nat
  {
    if c as int < 0x80 then 1 else if c as int < 0x800 then 2 else if c as int < 0x1_0000 then 3 else 4
  }

  function Bytes(s: string): nat
  {
    if s == "" then 0 else CharBytes(s[0]) + Bytes(s[1..])
  }

  lemma {:induction false} FewBytes(s: string)
    ensures Bytes(s) <= 4 * |s|
  {
    if s != "" {
      FewBytes(s[1..]);
    }
  }

  /** The length of a text in UTF-8 (section 3 of RFC 3629) is that of its characters, one to four
      bytes each. */
  lemma {:induction false} BytesAdd(a: string, b: string)
    ensures Bytes(a + b) == Bytes(a) + Bytes(b)
    ensures |a| <= Bytes(a)
  {
    if a == "" {
      assert a + b == b;
    } else {
      assert (a + b)[1..] == a[1..] + b;
      BytesAdd(a[1..], b);
    }
  }

  lemma BytesOfOne(c: char)
    ensures var n := c as int;
            && (Bytes([c]) == 1 <==> n <= 0x7F) && (Bytes([c]) == 2 <==> 0x80 <= n <= 0x7FF)
            && (Bytes([c]) == 3 <==> 0x800 <= n <= 0xFFFF) && (Bytes([c]) == 4 <==> 0x1_0000 <= n)
  {
    assert [c][1..] == "";
  }

  lemma {:induction false} EscapeIsNoShorter(s: string)
    ensures |Escape(s)| >= |s|
  {
    if s != "" {
      EscapeIsNoShorter(s[1..]);
    }
  }

  /** Printable ASCII but the quote and the backslash: written as it is, a byte a character. */
  predicate Plain(s: string)
  {
    forall i | 0 <= i < |s| :: 0x20 <= s[i] as int <= 0x7E && s[i] != '\"' && s[i] != '\\'
  }

  lemma {:induction false} PlainIsWrittenAsItIs(s: string)
    requires Plain(s)
    ensures Escape(s) == s && Bytes(s) == |s|
  {
    if s != "" {
      PlainIsWrittenAsItIs(s[1..]);
    }
  }

  lemma OneKey(k: string)
    ensures SortedKeys({k}) == [k]
  {
    assert k in SortedKeys({k});
    assert {k} - {k} == {};
  }

  /** The text of an object of one field: no blanks, the name quoted. */
  lemma OneFieldText(float: FloatText, k: string, v: Json)
    ensures Canonical(float, Obj(map[k := v])) == "{" + (Quoted(k) + (":" + Canonical(float, v)) + "}")
  {
    var j := Obj(map[k := v]);
    OneKey(k);
    assert j.fields.Keys == {k} && [k][1..] == [] && MoreFields(float, j, []) == "}";
    assert Field(float, j, k) == Quoted(k) + (":" + Canonical(float, v));
  }
}
