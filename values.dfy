/**
 * JavaScript values as the selector engine and the index see them, and the
 * handful of language coercions the source relies on: truthiness, String(),
 * Number(), parseFloat(), loose (==) and strict (===) equality, String.trim().
 *
 * Numbers are modelled as integers; a NaN result of a numeric coercion is
 * None. Objects built from literal data (Arr, Obj) are distinct objects, so
 * they are never === to anything; Ref(u) is a reference to the element or
 * plain object with identity u, compared by identity.
 */
module Values {

  datatype Option<T> = None | Some(value: T)

  /** The outcome of an operation that may throw: the thrown error's class. */
  datatype Result<T> = Ok(value: T) | Err(error: string)

  /** Identity of an element, node or indexed object. */
  type Uid = nat

  datatype Value =
    | Undefined
    | Null
    | Bool(b: bool)
    | Num(n: int)
    | Str(s: string)
    | Arr(items: seq<Value>, named: map<string, Value>)
    | Obj(fields: map<string, Value>)
    | Ref(target: Uid)

  /** An array literal with no named properties. */
  function List(items: seq<Value>): Value {
    Arr(items, map[])
  }

  /** typeof v === 'object' && v !== null */
  predicate IsObject(v: Value) {
    v.Arr? || v.Obj? || v.Ref?
  }

  /** typeof v (functions are not values of the model; null is an "object") */
  function TypeOf(v: Value): string {
    match v
    case Undefined => "undefined"
    case Bool(_) => "boolean"
    case Num(_) => "number"
    case Str(_) => "string"
    case _ => "object"
  }

  /** JavaScript truthiness (NaN is not a value of the model). */
  predicate Truthy(v: Value) {
    match v
    case Undefined => false
    case Null => false
    case Bool(b) => b
    case Num(n) => n != 0
    case Str(s) => s != ""
    case _ => true
  }

  predicate IsDigit(c: char) {
    '0' <= c <= '9'
  }

  predicate AllDigits(s: string) {
    forall i :: 0 <= i < |s| ==> IsDigit(s[i])
  }

  function DigitChar(d: nat): (c: char)
    requires d < 10
    ensures IsDigit(c)
  {
    ['0', '1', '2', '3', '4', '5', '6', '7', '8', '9'][d]
  }

  function DigitValue(c: char): (d: nat)
    requires IsDigit(c)
    ensures d < 10
  {
    (c as int - '0' as int) as nat
  }

  lemma DigitCharOfValue(c: char)
    requires IsDigit(c)
    ensures DigitChar(DigitValue(c)) == c
  {
  }

  /** Decimal notation of a natural number, without leading zeros. */
  function NatToString(n: nat): (s: string)
    ensures |s| >= 1 && AllDigits(s)
    ensures |s| > 1 ==> s[0] != '0'
    decreases n
  {
    if n < 10 then [DigitChar(n)] else NatToString(n / 10) + [DigitChar(n % 10)]
  }

  /** The value of a non-empty string of decimal digits. */
  function ParseNat(s: string): nat
    requires AllDigits(s)
    decreases |s|
  {
    if s == [] then 0 else 10 * ParseNat(s[..|s| - 1]) + DigitValue(s[|s| - 1])
  }

  lemma {:induction false} ParseNatToString(n: nat)
    ensures ParseNat(NatToString(n)) == n
    decreases n
  {
    if n >= 10 {
      var s := NatToString(n);
      assert s[..|s| - 1] == NatToString(n / 10);
      ParseNatToString(n / 10);
    }
  }

  /** Distinct numbers print differently: uid and level keys never collide. */
  lemma NatToStringInjective(a: nat, b: nat)
    requires NatToString(a) == NatToString(b)
    ensures a == b
  {
    ParseNatToString(a);
    ParseNatToString(b);
  }

  /** String(n) for an integer n. */
  function IntToString(i: int): string {
    if i < 0 then "-" + NatToString(-i) else NatToString(i)
  }

  /**
   * JavaScript's WhiteSpace and LineTerminator characters (those String.trim
   * removes): tab, vertical tab, form feed, space, no-break space, the byte
   * order mark, the space separators of Unicode category Zs, and the four
   * line terminators.
   */
  predicate IsJsSpace(c: char) {
    c == ' ' || c == '\t' || c == '\n' || c == '\r' || c == '\U{000B}' || c == '\U{000C}'
    || c == '\U{00A0}' || c == '\U{2028}' || c == '\U{2029}' || c == '\U{FEFF}'
    || c == '\U{1680}' || ('\U{2000}' <= c <= '\U{200A}') || c == '\U{202F}' || c == '\U{205F}' || c == '\U{3000}'
  }

  predicate IsLineTerminator(c: char) {
    c == '\n' || c == '\r' || c == '\U{2028}' || c == '\U{2029}'
  }

  function TrimStart(s: string): (r: string)
    ensures |r| <= |s| && r == s[|s| - |r|..]
    ensures r == [] || !IsJsSpace(r[0])
    ensures forall i :: 0 <= i < |s| - |r| ==> IsJsSpace(s[i])
    decreases |s|
  {
    if s != [] && IsJsSpace(s[0]) then TrimStart(s[1..]) else s
  }

  function TrimEnd(s: string): (r: string)
    ensures |r| <= |s| && r == s[..|r|]
    ensures r == [] || !IsJsSpace(r[|r| - 1])
    ensures forall i :: |r| <= i < |s| ==> IsJsSpace(s[i])
    decreases |s|
  {
    if s != [] && IsJsSpace(s[|s| - 1]) then TrimEnd(s[..|s| - 1]) else s
  }

  /** String.prototype.trim */
  function Trim(s: string): string {
    TrimEnd(TrimStart(s))
  }

  /** String(v) (for arrays, Array.prototype.join with ","; null and undefined items print as ""). */
  function ToString(v: Value): string
    decreases v, 1
  {
    match v
    case Undefined => "undefined"
    case Null => "null"
    case Bool(b) => if b then "true" else "false"
    case Num(n) => IntToString(n)
    case Str(s) => s
    case Arr(items, _) => Join(v, items)
    case Obj(_) => "[object Object]"
    case Ref(_) => "[object Object]"
  }

  function Join(ghost whole: Value, items: seq<Value>): string
    requires whole.Arr? && |items| <= |whole.items| && items == whole.items[..|items|]
    decreases whole, 0, |items|
  {
    if items == [] then ""
    else
      var last := items[|items| - 1];
      assert last in whole.items;
      var piece := if last.Null? || last.Undefined? then "" else ToString(last);
      var init := Join(whole, items[..|items| - 1]);
      if |items| == 1 then piece else init + "," + piece
  }

  /** An optionally signed decimal integer literal, as Number() and toJSValue read one. */
  predicate IsIntLiteral(s: string) {
    (|s| >= 1 && AllDigits(s)) || (|s| >= 2 && (s[0] == '-' || s[0] == '+') && AllDigits(s[1..]))
  }

  function IntLiteralValue(s: string): int
    requires IsIntLiteral(s)
  {
    if AllDigits(s) && |s| >= 1 then ParseNat(s)
    else if s[0] == '-' then -(ParseNat(s[1..]) as int)
    else ParseNat(s[1..])
  }

  lemma IntToStringIsLiteral(i: int)
    ensures IsIntLiteral(IntToString(i)) && IntLiteralValue(IntToString(i)) == i
  {
    if i < 0 {
      var n := NatToString(-i);
      var s := "-" + n;
      assert IntToString(i) == s;
      assert s[1..] == n;
      assert !AllDigits(s) by {
        assert !IsDigit(s[0]);
      }
      assert IsIntLiteral(s);
      assert IntLiteralValue(s) == -(ParseNat(n) as int);
      ParseNatToString(-i);
    } else {
      ParseNatToString(i);
    }
  }

  /** Distinct integers print differently: level and delta keys never collide. */
  lemma IntToStringInjective(a: int, b: int)
    requires IntToString(a) == IntToString(b)
    ensures a == b
  {
    IntToStringIsLiteral(a);
    IntToStringIsLiteral(b);
  }

  /** Number(s): surrounding white space ignored, "" is 0, an integer literal is its value, anything else NaN. */
  function StringToNumber(s: string): Option<int> {
    var t := Trim(s);
    if t == "" then Some(0)
    else if IsIntLiteral(t) then Some(IntLiteralValue(t))
    else None
  }

  /** Number(v) for a primitive v; objects go through String() first. */
  function ToNumber(v: Value): Option<int> {
    match v
    case Undefined => None
    case Null => Some(0)
    case Bool(b) => Some(if b then 1 else 0)
    case Num(n) => Some(n)
    case Str(s) => StringToNumber(s)
    case _ => StringToNumber(ToString(v))
  }

  /** The longest prefix of digits of s. */
  function DigitPrefix(s: string): (r: string)
    ensures |r| <= |s| && AllDigits(r) && r == s[..|r|]
    ensures |r| < |s| ==> !IsDigit(s[|r|])
    decreases |s|
  {
    if s != [] && IsDigit(s[0]) then [s[0]] + DigitPrefix(s[1..]) else []
  }

  /**
   * parseFloat(String(v)): leading white space skipped, an optional sign, then
   * the longest run of digits; NaN when there is none. The fractional part of
   * a decimal literal is not part of the model and is dropped.
   */
  function ParseFloat(v: Value): Option<int> {
    var t := TrimStart(ToString(v));
    var negative := t != [] && t[0] == '-';
    var body := if t != [] && (t[0] == '-' || t[0] == '+') then t[1..] else t;
    var digits := DigitPrefix(body);
    if digits == [] then None
    else if negative then Some(-(ParseNat(digits) as int))
    else Some(ParseNat(digits))
  }

  /** ===. Literal arrays and objects are never the same object as anything. */
  predicate StrictEq(a: Value, b: Value) {
    match a
    case Arr(_, _) => false
    case Obj(_) => false
    case Ref(u) => b.Ref? && b.target == u
    case _ => a == b
  }

  /** The primitive a value converts to when compared loosely with a primitive. */
  function ToPrimitive(v: Value): (r: Value)
    ensures !IsObject(r)
  {
    if IsObject(v) then Str(ToString(v)) else v
  }

  /** == (the Abstract Equality Comparison). */
  predicate LooseEq(a: Value, b: Value) {
    if a.Null? || a.Undefined? then b.Null? || b.Undefined?
    else if b.Null? || b.Undefined? then false
    else if IsObject(a) && IsObject(b) then StrictEq(a, b)
    else
      var pa, pb := ToPrimitive(a), ToPrimitive(b);
      if pa.Str? && pb.Str? then pa.s == pb.s
      else if pa.Bool? && pb.Bool? then pa.b == pb.b
      else
        var na, nb := ToNumber(pa), ToNumber(pb);
        na.Some? && nb.Some? && na.value == nb.value
  }

  lemma LooseEqSymmetric(a: Value, b: Value)
    ensures LooseEq(a, b) == LooseEq(b, a)
  {
  }

  /**
   * proto-lib's toJSValue, which is not part of this model: here "true",
   * "false", "null" and "undefined" become those values, an integer literal
   * becomes a number, and every other string stays a string.
   */
  function ToJSValue(s: string): (v: Value)
    ensures v.Str? ==> v.s == s
    ensures !IsObject(v)
  {
    if s == "true" then Bool(true)
    else if s == "false" then Bool(false)
    else if s == "null" then Null
    else if s == "undefined" then Undefined
    else if IsIntLiteral(s) then Num(IntLiteralValue(s))
    else Str(s)
  }

  /** The property key String(v) under which an object stores the entry for v. */
  function KeyOf(v: Value): string {
    ToString(v)
  }

  /** The canonical array index a property key denotes, if any ("0", "1", ..., never "01"). */
  function ArrayIndex(k: string): (r: Option<nat>)
    ensures r.Some? ==> NatToString(r.value) == k
  {
    if |k| >= 1 && AllDigits(k) && (|k| == 1 || k[0] != '0') then
      var n := ParseNat(k);
      CanonicalDigits(k);
      Some(n)
    else None
  }

  lemma {:induction false} CanonicalDigits(k: string)
    requires |k| >= 1 && AllDigits(k) && (|k| == 1 || k[0] != '0')
    ensures NatToString(ParseNat(k)) == k
    decreases |k|
  {
    if |k| > 1 {
      var init, last := k[..|k| - 1], k[|k| - 1];
      assert |init| >= 1 && AllDigits(init) && (|init| == 1 || init[0] != '0');
      CanonicalDigits(init);
      var q, d := ParseNat(init), DigitValue(last);
      assert ParseNat(k) == 10 * q + d;
      assert q >= 1 by {
        if |init| == 1 {
          assert init[0] != '0';
        } else {
          LeadingDigitPositive(init);
        }
      }
      NatToStringAppend(q, d);
      DigitCharOfValue(last);
      assert k == init + [last];
    }
  }

  /** Appending a digit to the decimal form of q >= 1 writes 10 * q + d. */
  lemma NatToStringAppend(q: nat, d: nat)
    requires q >= 1 && d < 10
    ensures NatToString(10 * q + d) == NatToString(q) + [DigitChar(d)]
  {
    LastDigit(q, d);
  }

  lemma LastDigit(q: nat, d: nat)
    requires d < 10
    ensures (10 * q + d) / 10 == q && (10 * q + d) % 10 == d
  {
  }

  lemma {:induction false} LeadingDigitPositive(k: string)
    requires |k| >= 1 && AllDigits(k) && k[0] != '0'
    ensures ParseNat(k) >= 1
    decreases |k|
  {
    if |k| > 1 {
      LeadingDigitPositive(k[..|k| - 1]);
    }
  }

  /** v[k]: a property read, undefined when absent. Objects known only by identity expose nothing. */
  function GetProp(v: Value, k: string): Value {
    match v
    case Obj(fields) => if k in fields then fields[k] else Undefined
    case Arr(items, named) =>
      if k == "length" then Num(|items|)
      else
        var i := ArrayIndex(k);
        if i.Some? && i.value < |items| then items[i.value]
        else if k in named then named[k] else Undefined
    case Str(s) =>
      var i := ArrayIndex(k);
      if k == "length" then Num(|s|)
      else if i.Some? && i.value < |s| then Str([s[i.value]]) else Undefined
    case _ => Undefined
  }

  /** o[k] = x on an object or array (an index past the end pads with undefined). */
  function SetProp(v: Value, k: string, x: Value): (r: Value)
    requires v.Obj? || v.Arr?
    ensures r.Obj? == v.Obj? && r.Arr? == v.Arr?
    ensures k != "length" ==> GetProp(r, k) == x
  {
    match v
    case Obj(fields) => Obj(fields[k := x])
    case Arr(items, named) =>
      var i := ArrayIndex(k);
      if i.Some? && i.value < |items| then Arr(items[i.value := x], named)
      else if i.Some? then Arr(items + seq(i.value - |items|, _ => Undefined) + [x], named)
      else Arr(items, named[k := x])
  }

  /** The characters of s up to the first occurrence of c, and the rest after it. */
  function SplitOn(s: string, c: char): (parts: seq<string>)
    ensures |parts| >= 1
    decreases |s|
  {
    if s == [] then [""]
    else if s[0] == c then [""] + SplitOn(s[1..], c)
    else
      var rest := SplitOn(s[1..], c);
      [[s[0]] + rest[0]] + rest[1..]
  }

  /**
   * proto-lib's findChildAtPath, which is not part of this model: here the
   * dotted path is followed one property at a time, and a missing step gives
   * undefined.
   */
  function FindChildAtPath(v: Value, path: string): Value {
    Follow(v, SplitOn(path, '.'))
  }

  function Follow(v: Value, steps: seq<string>): Value
    decreases |steps|
  {
    if steps == [] then v else Follow(GetProp(v, steps[0]), steps[1..])
  }

  /** String.prototype.indexOf(c) != -1 */
  predicate Contains(s: string, c: char) {
    exists i :: 0 <= i < |s| && s[i] == c
  }

  /** Array.prototype.indexOf(x) != -1 on the items of an array (strict equality). */
  predicate HasItem(items: seq<Value>, x: Value) {
    exists i :: 0 <= i < |items| && StrictEq(items[i], x)
  }

  /**
   * proto-lib's getNumeric, which is not part of this model: here a number
   * stays itself, a string whose trimmed form is an integer literal becomes
   * that integer, and every other value is NaN (None).
   */
  function GetNumeric(v: Value): (r: Option<int>)
    ensures v.Num? ==> r == Some(v.n)
    ensures !v.Num? && !v.Str? ==> r.None?
  {
    match v
    case Num(n) => Some(n)
    case Str(s) => var t := Trim(s); if IsIntLiteral(t) then Some(IntLiteralValue(t)) else None
    case _ => None
  }

  /** ASCII String.prototype.toLowerCase. */
  function Lower(s: string): (r: string)
    ensures |r| == |s|
  {
    seq(|s|, i requires 0 <= i < |s| => if 'A' <= s[i] <= 'Z' then (s[i] as int + 32) as char else s[i])
  }

  /** The own enumerable properties of an object or array value, by key. */
  function Fields(v: Value): (m: map<string, Value>)
    requires v.Arr? || v.Obj?
    ensures v.Obj? ==> m == v.fields
    ensures v.Arr? ==> forall i :: 0 <= i < |v.items| ==> NatToString(i) in m && m[NatToString(i)] == v.items[i]
  {
    if v.Obj? then v.fields
    else
      IndexFieldsHas(v.items, |v.items|);
      v.named + IndexFields(v.items, |v.items|)
  }

  /** The entries "0", "1", ..., String(n - 1) of an array's first n items. */
  function IndexFields(items: seq<Value>, n: nat): (m: map<string, Value>)
    requires n <= |items|
  {
    if n == 0 then map[]
    else IndexFields(items, n - 1)[NatToString(n - 1) := items[n - 1]]
  }

  lemma {:induction false} IndexFieldsHas(items: seq<Value>, n: nat)
    requires n <= |items|
    ensures forall i :: 0 <= i < n ==> NatToString(i) in IndexFields(items, n) && IndexFields(items, n)[NatToString(i)] == items[i]
  {
    if n > 0 {
      IndexFieldsHas(items, n - 1);
      var m := IndexFields(items, n - 1);
      assert IndexFields(items, n) == m[NatToString(n - 1) := items[n - 1]];
      forall i | 0 <= i < n - 1
        ensures NatToString(i) != NatToString(n - 1)
      {
        if NatToString(i) == NatToString(n - 1) {
          NatToStringInjective(i, n - 1);
        }
      }
    }
  }
}
