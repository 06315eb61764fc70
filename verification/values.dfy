/**
 * JavaScript values as the works catalog meets them: the skill field, the
 * title and the excerpt are loosely typed, so the helpers that read them
 * branch on JavaScript truthiness and convert with `String(value)`.
 */
module Values {

  datatype Option<+T> = None | Some(value: T) {
    function GetOr(default: T): T {
      match this
      case Some(v) => v
      case None => default
    }
  }

  /** The JavaScript values a skill, title or excerpt can hold. Plain objects
      other than arrays and floating-point numbers are not modelled. */
  datatype JsValue =
    | Undefined
    | Null
    | Bool(b: bool)
    | Num(n: int)
    | Str(s: string)
    | Arr(elems: seq<JsValue>)

  /** JavaScript truthiness: `undefined`, `null`, `false`, `0` and `""` are
      falsy; every array, even an empty one, is truthy. */
  predicate Truthy(v: JsValue) {
    match v
    case Undefined => false
    case Null => false
    case Bool(b) => b
    case Num(n) => n != 0
    case Str(s) => s != ""
    case Arr(_) => true
  }

  function DigitChar(d: nat): (c: char)
    requires d < 10
    ensures '0' <= c <= '9' && DigitValue(c) == d
  {
    ('0' as int + d) as char
  }

  function DigitValue(c: char): int {
    c as int - '0' as int
  }

  /** Decimal notation of a natural number, without leading zeros. */
  function NatToString(n: nat): (r: string)
    ensures |r| >= 1
    ensures forall i :: 0 <= i < |r| ==> '0' <= r[i] <= '9'
    ensures n >= 10 ==> r[0] != '0'
    decreases n
  {
    if n < 10 then [DigitChar(n)] else NatToString(n / 10) + [DigitChar(n % 10)]
  }

  /** `String(n)` for an integer. */
  function IntToString(n: int): string {
    if n < 0 then "-" + NatToString(-n) else NatToString(n)
  }

  /** Value of a string of decimal digits; None when a character is not a digit. */
  function ParseNat(s: string): Option<nat>
    decreases |s|
  {
    if s == [] then None
    else if !('0' <= s[|s| - 1] <= '9') then None
    else if |s| == 1 then Some(DigitValue(s[0]))
    else match ParseNat(s[..|s| - 1])
      case None => None
      case Some(p) => Some(10 * p + DigitValue(s[|s| - 1]))
  }

  lemma {:induction false} ParseNatToString(n: nat)
    ensures ParseNat(NatToString(n)) == Some(n)
    decreases n
  {
    var r := NatToString(n);
    if n >= 10 {
      ParseNatToString(n / 10);
      assert r[..|r| - 1] == NatToString(n / 10);
      assert DigitValue(r[|r| - 1]) == n % 10;
    }
  }

  /** `parts.join(sep)`. */
  function Join(parts: seq<string>, sep: string): string
    decreases |parts|
  {
    if |parts| == 0 then ""
    else if |parts| == 1 then parts[0]
    else parts[0] + sep + Join(parts[1..], sep)
  }

  lemma {:induction false} JoinAppend(parts: seq<string>, last: string, sep: string)
    requires |parts| >= 1
    ensures Join(parts + [last], sep) == Join(parts, sep) + sep + last
    decreases |parts|
  {
    if |parts| == 1 {
      assert parts + [last] == [parts[0], last];
    } else {
      assert (parts + [last])[1..] == parts[1..] + [last];
      JoinAppend(parts[1..], last, sep);
    }
  }

  /** `String(v)`. An array converts its elements with `String`, except that
      `undefined` and `null` elements become the empty string, and joins
      them with ",". */
  function ToJsString(v: JsValue): string
    decreases v
  {
    match v
    case Undefined => "undefined"
    case Null => "null"
    case Bool(b) => if b then "true" else "false"
    case Num(n) => IntToString(n)
    case Str(s) => s
    case Arr(xs) =>
      Join(seq(|xs|, i requires 0 <= i < |xs| =>
        if xs[i].Undefined? || xs[i].Null? then "" else ToJsString(xs[i])), ",")
  }

  /** `xs.filter((s) => s)`. */
  function FilterTruthy(xs: seq<JsValue>): (r: seq<JsValue>)
    ensures |r| <= |xs|
    ensures forall i :: 0 <= i < |r| ==> Truthy(r[i])
    ensures forall x :: x in r ==> x in xs
    decreases |xs|
  {
    if |xs| == 0 then []
    else if Truthy(xs[|xs| - 1]) then FilterTruthy(xs[..|xs| - 1]) + [xs[|xs| - 1]]
    else FilterTruthy(xs[..|xs| - 1])
  }

  /** No truthy element is dropped. */
  lemma {:induction false} FilterTruthyKeepsTruthy(xs: seq<JsValue>)
    ensures forall i :: 0 <= i < |xs| && Truthy(xs[i]) ==> xs[i] in FilterTruthy(xs)
    decreases |xs|
  {
    if |xs| > 0 {
      var init := xs[..|xs| - 1];
      FilterTruthyKeepsTruthy(init);
      assert forall i :: 0 <= i < |init| ==> xs[i] == init[i];
    }
  }

  lemma {:induction false} FilterTruthyIdempotent(xs: seq<JsValue>)
    ensures FilterTruthy(FilterTruthy(xs)) == FilterTruthy(xs)
    decreases |xs|
  {
    if |xs| > 0 {
      FilterTruthyIdempotent(xs[..|xs| - 1]);
      var r := FilterTruthy(xs);
      if Truthy(xs[|xs| - 1]) {
        assert r[..|r| - 1] == FilterTruthy(xs[..|xs| - 1]);
      }
    }
  }

  lemma {:induction false} FilterTruthyAppend(xs: seq<JsValue>, x: JsValue)
    requires Truthy(x)
    ensures FilterTruthy(xs + [x]) == FilterTruthy(xs) + [x]
  {
    assert (xs + [x])[..|xs|] == xs;
  }

  lemma {:induction false} FilterTruthyAppendFalsy(xs: seq<JsValue>, x: JsValue)
    requires !Truthy(x)
    ensures FilterTruthy(xs + [x]) == FilterTruthy(xs)
  {
    assert (xs + [x])[..|xs|] == xs;
  }

  /** The conversion `join` applies to each element that is neither
      undefined nor null. */
  function ToStrings(xs: seq<JsValue>): (r: seq<string>)
    ensures |r| == |xs|
    ensures forall i :: 0 <= i < |xs| ==> r[i] == ToJsString(xs[i])
  {
    seq(|xs|, i requires 0 <= i < |xs| => ToJsString(xs[i]))
  }
}
