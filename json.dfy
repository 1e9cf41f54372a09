/** The JSON-serialisable values the wrappers return and accept, and
    Python's `str()` of the plain ones. */
module Json {

  /** A float produced by a numeric routine; only whether it is NaN matters. */
  datatype Scalar = NaN | Finite(x: real)

  datatype Json =
    | JNull
    | JBool(b: bool)
    | JInt(i: int)
    | JStr(s: string)
    | JNum(x: Scalar)
    | JList(items: seq<Json>)
    | JObj(fields: map<string, Json>)

  /** Values whose `str()` the model defines: None, booleans, integers,
      strings and lists of those. */
  predicate Textual(j: Json)
  {
    match j
    case JNum(_) => false
    case JObj(_) => false
    case JList(items) => forall i :: 0 <= i < |items| ==> Textual(items[i])
    case _ => true
  }

  function Digit(d: int): char
    requires 0 <= d < 10
  {
    "0123456789"[d]
  }

  /** `str(n)` for an int. */
  function IntText(n: int): (r: string)
    ensures |r| > 0
    decreases if n < 0 then 1 - n else n
  {
    if n < 0 then "-" + IntText(-n)
    else if n < 10 then [Digit(n)]
    else IntText(n / 10) + [Digit(n % 10)]
  }

  predicate IsDigit(c: char) { '0' <= c <= '9' }

  function DigitValue(c: char): int
  {
    if IsDigit(c) then c as int - '0' as int else 0
  }

  /** The value of a string of decimal digits, as `int` reads it. */
  function NatValue(s: string): int
  {
    if s == [] then 0 else 10 * NatValue(s[..|s| - 1]) + DigitValue(s[|s| - 1])
  }

  /** `int(s)` on an optional minus sign followed by digits. */
  function IntValue(s: string): int
  {
    if |s| > 0 && s[0] == '-' then -NatValue(s[1..]) else NatValue(s)
  }

  lemma DigitRoundTrip(d: int)
    requires 0 <= d < 10
    ensures IsDigit(Digit(d)) && DigitValue(Digit(d)) == d
  {
    assert "0123456789" == ['0', '1', '2', '3', '4', '5', '6', '7', '8', '9'];
  }

  /** `str(n)` of a natural number is digits without a leading zero, and
      reads back as `n`. */
  lemma {:induction false} NatTextRoundTrip(n: int)
    requires n >= 0
    ensures NatValue(IntText(n)) == n
    ensures forall k :: 0 <= k < |IntText(n)| ==> IsDigit(IntText(n)[k])
    ensures IntText(n)[0] == '0' ==> n == 0
  {
    if n < 10 {
      DigitRoundTrip(n);
      assert IntText(n)[..0] == [];
    } else {
      var t := IntText(n / 10);
      NatTextRoundTrip(n / 10);
      DigitRoundTrip(n % 10);
      assert IntText(n) == t + [Digit(n % 10)];
      assert IntText(n)[..|IntText(n)| - 1] == t;
    }
  }

  /** `int(str(n)) == n`: `str(n)` is a minus sign exactly when `n` is
      negative, then the digits of its magnitude without a leading zero. */
  lemma {:induction false} IntTextRoundTrip(n: int)
    ensures IntValue(IntText(n)) == n
    ensures IntText(n)[0] == '-' <==> n < 0
    ensures var d := if n < 0 then IntText(n)[1..] else IntText(n);
      |d| > 0 && (forall k :: 0 <= k < |d| ==> IsDigit(d[k])) && (d[0] == '0' ==> n == 0)
  {
    var s := IntText(n);
    if n < 0 {
      var t := IntText(-n);
      NatTextRoundTrip(-n);
      assert s == "-" + t;
      assert s[1..] == t;
      assert IntValue(s) == -NatValue(t);
    } else {
      NatTextRoundTrip(n);
      assert IsDigit(s[0]);
      assert IntValue(s) == NatValue(s);
    }
  }

  /** `str(j)`; inside a list each element is written as `repr(element)`. */
  function Str(j: Json): string
    requires Textual(j)
    decreases j, 1, 0
  {
    match j
    case JNull => "None"
    case JBool(b) => if b then "True" else "False"
    case JInt(i) => IntText(i)
    case JStr(s) => s
    case JList(items) => "[" + Items(j, 0) + "]"
  }

  /** `repr(j)`: a string gets quotes, everything else reads as `str`. */
  function Repr(j: Json): string
    requires Textual(j)
    decreases j, 2, 0
  {
    if j.JStr? then "'" + j.s + "'" else Str(j)
  }

  /** The elements `i..` of a list, each as `repr`, separated by ", ". */
  function Items(j: Json, i: nat): string
    requires j.JList? && Textual(j) && i <= |j.items|
    decreases j, 0, |j.items| - i
  {
    if i == |j.items| then ""
    else
      assert j.items[i] in j.items;
      Repr(j.items[i]) + (if i + 1 < |j.items| then ", " else "") + Items(j, i + 1)
  }

  /** A list of strings, as JSON. */
  function Strings(xs: seq<string>): (r: Json)
    ensures r.JList? && Textual(r) && |r.items| == |xs|
    ensures forall i :: 0 <= i < |xs| ==> r.items[i] == JStr(xs[i])
  {
    JList(seq(|xs|, i requires 0 <= i < |xs| => JStr(xs[i])))
  }
}
