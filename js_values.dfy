/** The JavaScript values that flow through the highlighter's option maps, and the
    coercions the source applies to them: string conversion, truthiness, loose
    equality with a boolean, `Number(...)`, `parseInt(...)` and `isNaN(...)`. */
module JsValues {
  import opened JsText

  /** A JavaScript number as the highlighter uses it: an integer, `NaN` or `undefined`
      (what indexing past the end of an array yields). */
  datatype Num = Int(n: int) | NaN | Undefined {
    /** `'' + x` */
    function ToString(): string {
      match this
      case Int(n) => IntToString(n)
      case NaN => "NaN"
      case Undefined => "undefined"
    }

    /** `x + k` */
    function Plus(k: int): Num {
      match this
      case Int(n) => Int(n + k)
      case _ => NaN
    }
  }

  /** An option value: what `parseParams` produces (strings and string lists), what the
      defaults hold (booleans, numbers, null) and `undefined` for a missing key. */
  datatype Value = Str(s: string) | Bool(b: bool) | Number(n: int) | List(items: seq<string>) | Null | Undefined

  /** `String(v)`, which is also the property key `v` is converted to. */
  function ToStr(v: Value): string {
    match v
    case Str(s) => s
    case Bool(b) => if b then "true" else "false"
    case Number(n) => IntToString(n)
    case List(items) => Join(items, ",")
    case Null => "null"
    case Undefined => "undefined"
  }

  /** `!!v` */
  predicate Truthy(v: Value) {
    match v
    case Str(s) => s != ""
    case Bool(b) => b
    case Number(n) => n != 0
    case List(_) => true
    case Null => false
    case Undefined => false
  }

  /** `toBoolean` (shCore.js): the strings "true" and "false" become booleans, every other
      value is returned as it is. The lookup `{ "true": true, "false": false }[value]`
      converts `value` to a property key, so a boolean or a one-element list `["true"]`
      is converted as well. */
  function ToBoolean(v: Value): (r: Value)
    ensures ToStr(v) == "true" ==> r == Bool(true)
    ensures ToStr(v) == "false" ==> r == Bool(false)
    ensures ToStr(v) != "true" && ToStr(v) != "false" ==> r == v
  {
    if ToStr(v) == "true" then Bool(true)
    else if ToStr(v) == "false" then Bool(false)
    else v
  }

  /** The value of a run of decimal digits. */
  function DigitsValue(s: string): nat
    requires forall k :: 0 <= k < |s| ==> IsDigit(s[k])
  {
    if |s| == 0 then 0
    else
      assert IsDigit(s[|s| - 1]);
      10 * DigitsValue(s[..|s| - 1]) + (s[|s| - 1] as int - '0' as int)
  }

  /** Length of the run of decimal digits at the start of `s`. */
  function LeadingDigits(s: string): (n: nat)
    ensures n <= |s| && forall k :: 0 <= k < n ==> IsDigit(s[k])
    ensures n < |s| ==> !IsDigit(s[n])
  {
    if |s| == 0 || !IsDigit(s[0]) then 0 else 1 + LeadingDigits(s[1..])
  }

  /** `Number(s)` for strings: blank is 0, an optionally signed run of decimal digits
      surrounded by white space is its value, anything else is `NaN`. */
  function StringToNumber(s: string): Num {
    var t := Trim(s);
    if t == "" then Int(0)
    else
      var body := if t[0] == '-' || t[0] == '+' then t[1..] else t;
      if |body| > 0 && LeadingDigits(body) == |body| then
        Int(if t[0] == '-' then -(DigitsValue(body) as int) else DigitsValue(body))
      else NaN
  }

  /** `Number(v)` */
  function ToNumber(v: Value): Num {
    match v
    case Str(s) => StringToNumber(s)
    case Bool(b) => Int(if b then 1 else 0)
    case Number(n) => Int(n)
    case List(items) => StringToNumber(Join(items, ","))
    case Null => Int(0)
    case Undefined => NaN
  }

  /** `isNaN(v)` */
  predicate IsNaN(v: Value) {
    !ToNumber(v).Int?
  }

  /** `v == b` for a boolean `b`: the boolean is converted to 0 or 1 and compared with
      `Number(v)`; `null` and `undefined` equal no boolean. */
  predicate LooseEqualsBool(v: Value, b: bool) {
    match v
    case Bool(x) => x == b
    case Null => false
    case Undefined => false
    case _ => ToNumber(v) == Int(if b then 1 else 0)
  }

  /** `parseInt(v)`: optional white space and sign, then the longest run of decimal digits;
      `NaN` when there is no digit. */
  function ParseInt(v: Value): (r: Num)
    ensures r.Int? || r.NaN?
  {
    var s := ToStr(v);
    var t := s[LeadingSpace(s)..];
    var body := if |t| > 0 && (t[0] == '-' || t[0] == '+') then t[1..] else t;
    var n := LeadingDigits(body);
    if n == 0 then NaN
    else if |t| > 0 && t[0] == '-' then Int(-(DigitsValue(body[..n]) as int))
    else Int(DigitsValue(body[..n]))
  }

  lemma ParseIntOfNumber(n: int)
    ensures ParseInt(Number(n)) == Int(n)
  {
    var s := IntToString(n);
    NatToStringValue(if n < 0 then -n else n);
    var d := NatToString(if n < 0 then -n else n);
    assert LeadingSpace(s) == 0;
    if n < 0 {
      assert s[1..] == d;
    }
    assert LeadingDigits(d) == |d| by { LeadingDigitsAll(d); }
    assert d[..|d|] == d;
  }

  /** `parseInt` reads a run of digits as its value. */
  lemma ParseDigits(p: string)
    requires |p| >= 1 && forall k :: 0 <= k < |p| ==> IsDigit(p[k])
    ensures ParseInt(Str(p)) == Int(DigitsValue(p))
  {
    assert IsDigit(p[0]);
    ParseUnsigned(p);
    LeadingDigitsAll(p);
    assert p[..|p|] == p;
  }

  /** `parseInt` of a text that starts with neither white space nor a sign reads its
      leading digits. */
  lemma ParseUnsigned(s: string)
    requires |s| > 0 && !IsSpace(s[0]) && s[0] != '-' && s[0] != '+'
    ensures var n := LeadingDigits(s);
      ParseInt(Str(s)) == if n == 0 then NaN else Int(DigitsValue(s[..n]))
  {
    assert ToStr(Str(s)) == s;
    assert LeadingSpace(s) == 0;
    assert s[0..] == s;
  }

  lemma {:induction false} LeadingDigitsAll(s: string)
    requires forall k :: 0 <= k < |s| ==> IsDigit(s[k])
    ensures LeadingDigits(s) == |s|
  {
    if |s| > 0 {
      LeadingDigitsAll(s[1..]);
    }
  }

  /** The digits `NatToString` writes are read back as the number. */
  lemma {:induction false} NatToStringValue(n: nat)
    ensures DigitsValue(NatToString(n)) == n
    decreases n
  {
    if n >= 10 {
      var d := NatToString(n);
      NatToStringValue(n / 10);
      assert d[..|d| - 1] == NatToString(n / 10);
    }
  }
}
