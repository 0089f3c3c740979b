/** The PHP values the modelled code handles: scalars, ordered arrays and
    objects, with the handful of language rules the code relies on (key
    lookup, array writes, truthiness, string and integer conversion). */
module Php {
  import opened Wrappers

  /** An array key: PHP keys are integers or strings. */
  datatype Key = IntKey(n: int) | StrKey(s: string)

  /** A PHP value. Floats and resources are not modelled. A closure is an
      object of class "Closure". */
  datatype Value =
    | Null
    | Bool(b: bool)
    | Int(n: int)
    | Str(s: string)
    | Arr(entries: seq<Entry>)
    | Obj(obj: Object)

  /** One key/value pair of an ordered PHP array. */
  datatype Entry = Entry(key: Key, val: Value)

  /** An object: its class, an identity handle, and the ordered record of
      the method calls and property writes made on it after construction. */
  datatype Object = Object(cls: string, handle: nat, trace: seq<Event>)

  /** Something done to an object after it was constructed. */
  datatype Event =
    | Call(methodName: Value, args: seq<Value>)
    | SetProp(name: Value, value: Value)

  const ClosureClass: string := "Closure"

  predicate IsClosure(v: Value) {
    v.Obj? && v.obj.cls == ClosureClass
  }

  /** The value stored under `k`, if the key is present. A present `Null`
      is found: this is key presence, not `isset`. */
  function Find(es: seq<Entry>, k: Key): (r: Option<Value>)
    ensures r.Some? <==> exists i :: 0 <= i < |es| && es[i].key == k
    ensures r.Some? ==> exists i :: 0 <= i < |es| && es[i] == Entry(k, r.value)
  {
    if |es| == 0 then None
    else if es[0].key == k then Some(es[0].val)
    else Find(es[1..], k)
  }

  /** Lookup in an array that starts with `e`. */
  lemma FindCons(e: Entry, rest: seq<Entry>, k: Key)
    ensures Find([e] + rest, k) == if e.key == k then Some(e.val) else Find(rest, k)
  {
    assert ([e] + rest)[1..] == rest;
  }

  /** The first entry with key `k` is the one found. */
  lemma {:induction false} FindFirst(es: seq<Entry>, i: nat, k: Key)
    requires i < |es| && es[i].key == k
    requires forall j :: 0 <= j < i ==> es[j].key != k
    ensures Find(es, k) == Some(es[i].val)
    decreases i
  {
    if i > 0 {
      FindFirst(es[1..], i - 1, k);
    }
  }

  /** In a list, index `i` reads the `i`-th value. */
  lemma FindInList(vs: seq<Value>, i: int)
    requires 0 <= i < |vs|
    ensures Find(List(vs).entries, IntKey(i)) == Some(vs[i])
  {
    var es := List(vs).entries;
    assert es[i].key == IntKey(i);
    var r := Find(es, IntKey(i));
    var j :| 0 <= j < |es| && es[j] == Entry(IntKey(i), r.value);
    assert es[j].key == IntKey(j);
    assert ValuesOf(es)[j] == vs[j];
  }

  /** `fetch x, v[k]`: succeeds only on an array that holds the key. */
  function Fetch(v: Value, k: Key): Option<Value> {
    if v.Arr? then Find(v.entries, k) else None
  }

  /** `fetch x, v["name"]` with a literal string key. */
  function Field(v: Value, name: string): Option<Value> {
    Fetch(v, StrKey(name))
  }

  /** `isset v[k]`: the key is present and its value is not null. */
  predicate IsSet(v: Value, k: Key) {
    Fetch(v, k).Some? && Fetch(v, k).value != Null
  }

  /** Reading `v[k]` as an expression: a missing key reads as null. */
  function Index(v: Value, k: Key): Value {
    Fetch(v, k).GetOr(Null)
  }

  /** `$a[k] = v`: overwrite the entry in place when the key exists,
      otherwise append it at the end. */
  function Put(es: seq<Entry>, k: Key, v: Value): (r: seq<Entry>)
    ensures Find(r, k) == Some(v)
    ensures forall k' :: k' != k ==> Find(r, k') == Find(es, k')
    ensures |r| == if Find(es, k).Some? then |es| else |es| + 1
  {
    if |es| == 0 then [Entry(k, v)]
    else if es[0].key == k then [Entry(k, v)] + es[1..]
    else [es[0]] + Put(es[1..], k, v)
  }

  /** The values of an array, in order. */
  function ValuesOf(es: seq<Entry>): (r: seq<Value>)
    ensures |r| == |es|
    ensures forall i :: 0 <= i < |es| ==> r[i] == es[i].val
  {
    seq(|es|, i requires 0 <= i < |es| => es[i].val)
  }

  /** A PHP list: the values keyed 0, 1, 2, ... in order. */
  function List(vs: seq<Value>): (r: Value)
    ensures r.Arr? && ValuesOf(r.entries) == vs
    ensures forall i :: 0 <= i < |vs| ==> r.entries[i].key == IntKey(i)
  {
    Arr(seq(|vs|, i requires 0 <= i < |vs| => Entry(IntKey(i), vs[i])))
  }

  /** PHP's conversion of a string to boolean: only "" and "0" are false. */
  predicate TruthyString(s: string) {
    s != "" && s != "0"
  }

  /** PHP's conversion of any value to boolean. */
  predicate Truthy(v: Value) {
    match v
    case Null => false
    case Bool(b) => b
    case Int(n) => n != 0
    case Str(s) => TruthyString(s)
    case Arr(es) => |es| > 0
    case Obj(_) => true
  }

  predicate IsDigit(c: char) {
    '0' <= c <= '9'
  }

  predicate AllDigits(s: string) {
    forall i :: 0 <= i < |s| ==> IsDigit(s[i])
  }

  function DigitChar(d: nat): (c: char)
    requires d < 10
    ensures IsDigit(c) && c as int - '0' as int == d
  {
    ['0', '1', '2', '3', '4', '5', '6', '7', '8', '9'][d]
  }

  /** Decimal rendering of a natural number, without leading zeros. */
  function NatToString(n: nat): (r: string)
    ensures |r| > 0 && AllDigits(r)
    decreases n
  {
    if n < 10 then [DigitChar(n)] else NatToString(n / 10) + [DigitChar(n % 10)]
  }

  /** PHP's conversion of an integer to string. */
  function IntToString(i: int): string {
    if i < 0 then "-" + NatToString(-i) else NatToString(i)
  }

  /** The number a string of decimal digits denotes. */
  function DigitsValue(s: string): nat
    requires AllDigits(s)
  {
    if |s| == 0 then 0
    else DigitsValue(s[..|s| - 1]) * 10 + (s[|s| - 1] as int - '0' as int)
  }

  /** Length of the longest prefix of `s` made of decimal digits. */
  function DigitRun(s: string): (n: nat)
    ensures n <= |s| && AllDigits(s[..n])
    ensures n < |s| ==> !IsDigit(s[n])
  {
    if |s| == 0 || !IsDigit(s[0]) then 0
    else
      var m := DigitRun(s[1..]);
      assert s[..m + 1] == [s[0]] + s[1..][..m];
      m + 1
  }

  predicate IsSpace(c: char) {
    c == ' ' || c == '\t' || c == '\n' || c == '\r' || c as int == 11 || c as int == 12
  }

  /** `s` without its leading whitespace. */
  function SkipSpace(s: string): (r: string)
    ensures |r| <= |s| && r == s[|s| - |r|..]
    ensures |r| > 0 ==> !IsSpace(r[0])
  {
    if |s| > 0 && IsSpace(s[0]) then SkipSpace(s[1..]) else s
  }

  /** PHP's `(int)` cast of a string: leading whitespace, an optional sign,
      then the longest run of digits; no digits gives 0. */
  function ParseInt(s: string): int {
    var t := SkipSpace(s);
    if |t| > 0 && (t[0] == '-' || t[0] == '+') then
      var magnitude: int := DigitsValue(t[1..][..DigitRun(t[1..])]);
      if t[0] == '-' then -magnitude else magnitude
    else
      DigitsValue(t[..DigitRun(t)])
  }

  lemma {:induction false} DigitsValueOfNatToString(n: nat)
    ensures DigitsValue(NatToString(n)) == n
    decreases n
  {
    var r := NatToString(n);
    if n >= 10 {
      DigitsValueOfNatToString(n / 10);
      assert r[..|r| - 1] == NatToString(n / 10);
    }
  }

  lemma DigitRunOfDigits(s: string)
    requires AllDigits(s)
    ensures DigitRun(s) == |s|
  {
    if |s| > 0 {
      DigitRunOfDigits(s[1..]);
    }
  }

  /** A run of digits with nothing before it parses to its own value. */
  lemma ParseIntOfDigits(digits: string)
    requires |digits| > 0 && AllDigits(digits)
    ensures ParseInt(digits) == DigitsValue(digits)
  {
    assert !IsSpace(digits[0]);
    assert SkipSpace(digits) == digits;
    DigitRunOfDigits(digits);
    assert digits[..|digits|] == digits;
  }

  /** A minus sign followed by a run of digits parses to the negated value. */
  lemma ParseIntOfNegatedDigits(digits: string)
    requires |digits| > 0 && AllDigits(digits)
    ensures ParseInt("-" + digits) == 0 - DigitsValue(digits) as int
  {
    var t := "-" + digits;
    assert !IsSpace(t[0]);
    assert SkipSpace(t) == t;
    assert t[1..] == digits;
    DigitRunOfDigits(digits);
    assert digits[..|digits|] == digits;
  }

  /** Reading back a rendered integer gives the integer: `(int)(string)i == i`. */
  lemma ParseIntOfIntToString(i: int)
    ensures ParseInt(IntToString(i)) == i
  {
    if i < 0 {
      DigitsValueOfNatToString(-i);
      ParseIntOfNegatedDigits(NatToString(-i));
    } else {
      DigitsValueOfNatToString(i);
      ParseIntOfDigits(NatToString(i));
    }
  }

  /** PHP's string conversion of a key. */
  function KeyToString(k: Key): string {
    match k
    case IntKey(n) => IntToString(n)
    case StrKey(s) => s
  }

  /** PHP's `(string)` conversion of a value. Objects would need
      `__toString`; the model renders them by a fixed word. */
  function StrOf(v: Value): string {
    match v
    case Null => ""
    case Bool(b) => if b then "1" else ""
    case Int(n) => IntToString(n)
    case Str(s) => s
    case Arr(_) => "Array"
    case Obj(_) => "Object"
  }

  /** The key a value becomes when used as an array offset; arrays and
      objects are illegal offsets. */
  function KeyOf(v: Value): Option<Key> {
    match v
    case Null => Some(StrKey(""))
    case Bool(b) => Some(IntKey(if b then 1 else 0))
    case Int(n) => Some(IntKey(n))
    case Str(s) => Some(StrKey(s))
    case Arr(_) => None
    case Obj(_) => None
  }

  /** The value a key reads back as when stored as an array element. */
  function KeyValue(k: Key): Value {
    match k
    case IntKey(n) => Int(n)
    case StrKey(s) => Str(s)
  }
}
