/** The Python values that reach the codec and the payload builder: the
    JSON-serialisable ones, Python's truth test on them, and the `int()`
    conversion the payload builder applies to a badge. */
module Values {
  import opened Wrappers

  /** `Null` is Python's `None`; `Str` stands for both `str` and `unicode`. */
  datatype Value =
    | Null
    | Bool(b: bool)
    | Int(i: int)
    | Str(s: string)
    | List(items: seq<Value>)
    | Dict(entries: map<string, Value>)

  /** Python's `bool(v)`: exactly `None`, `False`, `0` and the empty
      string, list and dict are false. */
  predicate Truthy(v: Value)
    ensures !Truthy(v) <==> v in {Null, Bool(false), Int(0), Str(""), List([]), Dict(map[])}
  {
    match v
    case Null => false
    case Bool(b) => b
    case Int(i) => i != 0
    case Str(s) => s != ""
    case List(items) => items != []
    case Dict(entries) => entries != map[]
  }

  /** The characters CPython 2 treats as white space around an integer
      literal and that `str.strip()` removes: space, tab, line feed,
      carriage return, vertical tab and form feed. */
  predicate IsSpace(c: char)
  {
    c == ' ' || c == '\t' || c == '\n' || c == '\r' || c == '\U{b}' || c == '\U{c}'
  }

  predicate AllSpace(s: string)
  {
    forall k :: 0 <= k < |s| ==> IsSpace(s[k])
  }

  predicate IsDigit(c: char)
  {
    '0' <= c <= '9'
  }

  predicate AllDigits(s: string)
  {
    forall k :: 0 <= k < |s| ==> IsDigit(s[k])
  }

  /** The first position at or after `i` that does not hold white space. */
  function SkipSpaces(s: string, i: nat): (j: nat)
    requires i <= |s|
    ensures i <= j <= |s|
    ensures forall k :: i <= k < j ==> IsSpace(s[k])
    ensures j < |s| ==> !IsSpace(s[j])
    decreases |s| - i
  {
    if i == |s| || !IsSpace(s[i]) then i else SkipSpaces(s, i + 1)
  }

  /** The end of `s[i..j]` once its trailing white space is cut. */
  function TrimEnd(s: string, i: nat, j: nat): (e: nat)
    requires i <= j <= |s|
    ensures i <= e <= j
    ensures forall k :: e <= k < j ==> IsSpace(s[k])
    ensures e > i ==> !IsSpace(s[e - 1])
    decreases j
  {
    if j == i || !IsSpace(s[j - 1]) then j else TrimEnd(s, i, j - 1)
  }

  /** The number a string of decimal digits denotes. */
  function DigitsValue(s: string): (n: nat)
    requires AllDigits(s)
    decreases |s|
  {
    if s == [] then 0
    else
      assert AllDigits(s[..|s| - 1]);
      assert IsDigit(s[|s| - 1]);
      DigitsValue(s[..|s| - 1]) * 10 + (s[|s| - 1] as int - '0' as int)
  }

  /** The text `lead + sign + mid + digits + trail` is an integer literal of
      CPython 2: white space, an optional sign, white space (only after a
      sign), at least one decimal digit, white space. */
  ghost predicate IsLiteral(lead: string, sign: string, mid: string, digits: string, trail: string)
  {
    && AllSpace(lead) && AllSpace(mid) && AllSpace(trail)
    && (sign == "" || sign == "+" || sign == "-")
    && (sign == "" ==> mid == "")
    && digits != [] && AllDigits(digits)
  }

  function SignedValue(sign: string, digits: string): int
    requires AllDigits(digits)
  {
    if sign == "-" then -(DigitsValue(digits) as int) else DigitsValue(digits)
  }

  /** Base-10 `int(s)` on a byte string, as CPython 2 parses it: white
      space, an optional sign, white space, the digits, white space;
      `None` where Python raises `ValueError`. Only literals are accepted. */
  function ParseInt(s: string): (r: Option<int>)
    ensures r.Some? ==> exists lead, sign, mid, digits, trail ::
      && s == lead + sign + mid + digits + trail
      && IsLiteral(lead, sign, mid, digits, trail)
      && r.value == SignedValue(sign, digits)
  {
    var i := SkipSpaces(s, 0);
    var e := TrimEnd(s, i, |s|);
    var signed := i < e && (s[i] == '-' || s[i] == '+');
    var k := SkipSpaces(s, if signed then i + 1 else i);
    var digits := if k <= e then s[k..e] else [];
    if digits != [] && AllDigits(digits) then
      var sign := if signed then s[i..i + 1] else "";
      ParseIntWitness(s, i, sign, k, e);
      Some(SignedValue(sign, digits))
    else None
  }

  lemma ParseIntWitness(s: string, i: nat, sign: string, k: nat, e: nat)
    requires i + |sign| <= k <= e <= |s| && s[i..i + |sign|] == sign
    requires forall j :: 0 <= j < i ==> IsSpace(s[j])
    requires forall j :: i + |sign| <= j < k ==> IsSpace(s[j])
    requires forall j :: e <= j < |s| ==> IsSpace(s[j])
    requires sign == "" || sign == "+" || sign == "-"
    requires sign == "" ==> k == i
    requires s[k..e] != [] && AllDigits(s[k..e])
    ensures exists lead, sign', mid, digits, trail ::
      && s == lead + sign' + mid + digits + trail
      && IsLiteral(lead, sign', mid, digits, trail)
      && SignedValue(sign, s[k..e]) == SignedValue(sign', digits)
  {
    var lead, mid, digits, trail := s[..i], s[i + |sign|..k], s[k..e], s[e..];
    assert s == lead + sign + mid + digits + trail;
    assert AllSpace(lead) by {
      assert forall j :: 0 <= j < i ==> lead[j] == s[j];
    }
    assert AllSpace(mid) by {
      assert forall j :: 0 <= j < |mid| ==> mid[j] == s[i + |sign| + j];
    }
    assert AllSpace(trail) by {
      assert forall j :: 0 <= j < |trail| ==> trail[j] == s[e + j];
    }
    assert IsLiteral(lead, sign, mid, digits, trail);
  }

  /** Every literal is accepted, with its signed value. */
  lemma ParseIntAccepts(lead: string, sign: string, mid: string, digits: string, trail: string)
    requires IsLiteral(lead, sign, mid, digits, trail)
    ensures ParseInt(lead + sign + mid + digits + trail) == Some(SignedValue(sign, digits))
  {
    var s := lead + sign + mid + digits + trail;
    var a, b, c := |lead|, |lead| + |sign|, |lead| + |sign| + |mid|;
    var e := c + |digits|;
    assert s[a..b] == sign && s[c..e] == digits;
    assert forall k :: 0 <= k < a ==> s[k] == lead[k];
    assert forall k :: b <= k < c ==> s[k] == mid[k - b];
    assert forall k :: e <= k < |s| ==> s[k] == trail[k - e];
    assert s[a] == if sign == "" then digits[0] else sign[0];
    assert s[e - 1] == digits[|digits| - 1];
    ParseIntAt(s, a, b, c, e);
  }

  /** `ParseInt` read off the positions of the parts of a literal in `s`:
      the sign is `s[a..b]`, the digits `s[c..e]`, the rest white space. */
  lemma ParseIntAt(s: string, a: nat, b: nat, c: nat, e: nat)
    requires a <= b <= c < e <= |s|
    requires forall k :: 0 <= k < a ==> IsSpace(s[k])
    requires forall k :: b <= k < c ==> IsSpace(s[k])
    requires forall k :: e <= k < |s| ==> IsSpace(s[k])
    requires s[a..b] == "" || s[a..b] == "+" || s[a..b] == "-"
    requires b == a ==> c == a
    requires AllDigits(s[c..e])
    ensures ParseInt(s) == Some(SignedValue(s[a..b], s[c..e]))
  {
    assert IsDigit(s[c]) && IsDigit(s[e - 1]);
    assert !IsSpace(s[a]) by {
      if b > a { assert s[a] == s[a..b][0]; }
    }
    SkipSpacesAt(s, 0, a);
    TrimEndAt(s, a, |s|, e);
    assert (s[a] == '-' || s[a] == '+') <==> b > a by {
      if b > a { assert s[a] == s[a..b][0]; }
    }
    SkipSpacesAt(s, b, c);
  }

  /** Text without a single decimal digit, such as `"abc"` or `" - "`, is
      no integer literal: `int()` raises `ValueError` on it. */
  lemma ParseIntNeedsDigit(s: string)
    requires forall k :: 0 <= k < |s| ==> !IsDigit(s[k])
    ensures ParseInt(s).None?
  {
  }

  lemma SkipSpacesAt(s: string, i: nat, j: nat)
    requires i <= j <= |s|
    requires forall k :: i <= k < j ==> IsSpace(s[k])
    requires j < |s| ==> !IsSpace(s[j])
    ensures SkipSpaces(s, i) == j
  {
  }

  lemma TrimEndAt(s: string, i: nat, j: nat, e: nat)
    requires i <= e <= j <= |s|
    requires forall k :: e <= k < j ==> IsSpace(s[k])
    requires e > i ==> !IsSpace(s[e - 1])
    ensures TrimEnd(s, i, j) == e
  {
  }

  /** `int(v)`: `None` where Python raises (`TypeError` for `None`, lists
      and dicts, `ValueError` for a string that is not an integer literal). */
  function IntOf(v: Value): (r: Option<int>)
    ensures v.Int? ==> r == Some(v.i)
    ensures v.Bool? ==> r == Some(if v.b then 1 else 0)
    ensures v.Null? || v.List? || v.Dict? ==> r.None?
    ensures v.Str? ==> r == ParseInt(v.s)
  {
    match v
    case Int(i) => Some(i)
    case Bool(b) => Some(if b then 1 else 0)
    case Str(s) => ParseInt(s)
    case _ => None
  }

  /** The decimal text `str(n)` writes for a natural number. */
  function DecimalText(n: nat): (s: string)
    ensures s != [] && AllDigits(s)
  {
    if n < 10 then [('0' as int + n) as char]
    else DecimalText(n / 10) + [('0' as int + n % 10) as char]
  }

  /** The digits `str(n)` writes denote `n`. */
  lemma {:induction false} DecimalTextValue(n: nat)
    ensures DigitsValue(DecimalText(n)) == n
  {
    if n >= 10 {
      var s := DecimalText(n);
      DecimalTextValue(n / 10);
      assert s[..|s| - 1] == DecimalText(n / 10);
    }
  }

  /** `int(str(n)) == n`: the parser reads back what Python writes. */
  lemma ParseDecimalText(n: nat)
    ensures ParseInt(DecimalText(n)) == Some(n)
  {
    var s := DecimalText(n);
    DecimalTextValue(n);
    assert s[0..0] == "" && s[0..|s|] == s;
    ParseIntAt(s, 0, 0, 0, |s|);
  }
}
