/**
 * The loosely typed JSON tree the structuring call returns and the mapper walks,
 * seen as Python values: `None`, `bool`, `int`, `str`, `list` and `dict`. A dict is
 * its list of fields in insertion order; its keys are distinct, as in any Python
 * dict, and a lookup takes the first field with the key.
 */
module PyJson {
  import opened Results
  import opened PyStr

  datatype Json =
    | JNull
    | JBool(b: bool)
    | JInt(i: int)
    | JStr(s: string)
    | JList(items: seq<Json>)
    | JObj(fields: Fields)

  type Fields = seq<(string, Json)>

  /** Python truthiness: `None`, `False`, `0`, `""`, `[]` and `{}` are false. */
  predicate Truthy(j: Json)
  {
    match j
    case JNull => false
    case JBool(b) => b
    case JInt(i) => i != 0
    case JStr(s) => s != ""
    case JList(xs) => xs != []
    case JObj(fs) => fs != []
  }

  /** The index of the first field named `k`, or -1. */
  function KeyIndex(fs: Fields, k: string): (r: int)
    ensures -1 <= r < |fs|
    ensures r >= 0 ==> fs[r].0 == k && forall i :: 0 <= i < r ==> fs[i].0 != k
    ensures r == -1 <==> forall i :: 0 <= i < |fs| ==> fs[i].0 != k
  {
    if fs == [] then -1
    else if fs[0].0 == k then 0
    else
      var r := KeyIndex(fs[1..], k);
      if r < 0 then -1 else r + 1
  }

  predicate HasField(fs: Fields, k: string)
  {
    KeyIndex(fs, k) >= 0
  }

  function KeySet(fs: Fields): set<string>
  {
    set i | 0 <= i < |fs| :: fs[i].0
  }

  /** `d.get(k)`: `None` when the key is absent. */
  function Get(fs: Fields, k: string): Option<Json>
  {
    var i := KeyIndex(fs, k);
    if i < 0 then None else Some(fs[i].1)
  }

  /** `d.get(k, default)` */
  function GetOr(fs: Fields, k: string, default: Json): Json
  {
    var i := KeyIndex(fs, k);
    if i < 0 then default else fs[i].1
  }

  function BoolToInt(b: bool): int { if b then 1 else 0 }

  /** Python `a == b`: numbers compare by value (`True == 1`), lists element-wise,
      dicts by their keys and the values under each key, whatever the order. */
  function PyEq(a: Json, b: Json): bool
    decreases a, 1, 0
  {
    match a
    case JNull => b.JNull?
    case JBool(x) => (b.JBool? && b.b == x) || (b.JInt? && b.i == BoolToInt(x))
    case JInt(x) => (b.JInt? && b.i == x) || (b.JBool? && BoolToInt(b.b) == x)
    case JStr(x) => b.JStr? && b.s == x
    case JList(xs) =>
      && b.JList?
      && |xs| == |b.items|
      && forall i :: 0 <= i < |xs| ==> PyEq(xs[i], b.items[i])
    case JObj(xs) =>
      b.JObj? && FieldsMatch(xs, |xs|, b.fields) && KeysIn(b.fields, |b.fields|, xs)
  }

  /** Each of the first `n` keys of `xs` is a key of `ys`, with equal values. */
  function FieldsMatch(xs: Fields, n: nat, ys: Fields): bool
    requires n <= |xs|
    decreases JObj(xs), 0, n
  {
    if n == 0 then true
    else
      var k := xs[n - 1].0;
      && HasField(ys, k)
      && PyEq(xs[KeyIndex(xs, k)].1, ys[KeyIndex(ys, k)].1)
      && FieldsMatch(xs, n - 1, ys)
  }

  /** Each of the first `n` keys of `xs` is a key of `ys`. */
  function KeysIn(xs: Fields, n: nat, ys: Fields): bool
    requires n <= |xs|
  {
    n == 0 || (HasField(ys, xs[n - 1].0) && KeysIn(xs, n - 1, ys))
  }

  lemma {:induction false} KeysInSelf(xs: Fields, n: nat)
    requires n <= |xs|
    ensures KeysIn(xs, n, xs)
  {
    if n > 0 {
      KeysInSelf(xs, n - 1);
    }
  }

  /** Python equality is reflexive on these values (it is not on floats, which are left out). */
  lemma {:induction false} PyEqReflexive(a: Json)
    ensures PyEq(a, a)
    decreases a, 1, 0
  {
    match a
    case JList(xs) =>
      forall i | 0 <= i < |xs| ensures PyEq(xs[i], xs[i]) { PyEqReflexive(xs[i]); }
    case JObj(xs) =>
      FieldsMatchSelf(xs, |xs|);
      KeysInSelf(xs, |xs|);
    case _ =>
  }

  lemma {:induction false} FieldsMatchSelf(xs: Fields, n: nat)
    requires n <= |xs|
    ensures FieldsMatch(xs, n, xs)
    decreases JObj(xs), 0, n
  {
    if n > 0 {
      var k := xs[n - 1].0;
      PyEqReflexive(xs[KeyIndex(xs, k)].1);
      FieldsMatchSelf(xs, n - 1);
    }
  }

  /** An exception that escapes `map_to_dto`: a method called on a value of the
      wrong type, or an operator applied to one. */
  datatype MapError = MappingFailed

  /** Python's `"x" in j` for a string `x`: key membership for a dict, element
      equality for a list, substring search for a string; `TypeError` otherwise. */
  function In(k: string, j: Json): Option<bool>
  {
    match j
    case JObj(fs) => Some(HasField(fs, k))
    case JList(xs) => Some(exists i :: 0 <= i < |xs| && xs[i] == JStr(k))
    case JStr(s) => Some(Contains(s, k))
    case _ => None
  }

  /** Python's `j[k]` for a string `k`: only a dict holding the key succeeds. */
  function Subscript(j: Json, k: string): Option<Json>
  {
    match j
    case JObj(fs) => Get(fs, k)
    case _ => None
  }

  /** The fields of `j` when it is a dict; any other value has no `.get`. */
  function AsDict(j: Json): Option<Fields>
  {
    if j.JObj? then Some(j.fields) else None
  }

  /** The entries of `j` when it is a list of dicts: the only shape whose entries
      all answer `.get`. */
  function AsDictList(j: Json): (r: Option<seq<Fields>>)
    ensures r.Some? <==> j.JList? && forall i :: 0 <= i < |j.items| ==> j.items[i].JObj?
    ensures r.Some? ==> |r.value| == |j.items|
    ensures r.Some? ==> forall i :: 0 <= i < |j.items| ==> j.items[i] == JObj(r.value[i])
  {
    if j.JList? && forall i :: 0 <= i < |j.items| ==> j.items[i].JObj? then
      Some(seq(|j.items|, i requires 0 <= i < |j.items| && j.items[i].JObj? => j.items[i].fields))
    else None
  }

  function Join(sep: string, parts: seq<string>): string
  {
    if parts == [] then ""
    else if |parts| == 1 then parts[0]
    else parts[0] + sep + Join(sep, parts[1..])
  }

  function HexDigit(d: nat): char
    requires d < 16
  {
    if d < 10 then DigitChar(d) else ('a' as int + d - 10) as char
  }

  /** One character of a string literal as `repr` writes it, with quote `q`. */
  function EscapeChar(c: char, q: char): string
  {
    if c == q || c == '\\' then ['\\', c]
    else if c == '\t' then "\\t"
    else if c == '\n' then "\\n"
    else if c == '\r' then "\\r"
    else if c as int < 32 || c as int == 127 then
      ['\\', 'x', HexDigit(c as int / 16), HexDigit(c as int % 16)]
    else [c]
  }

  function EscapeAll(s: string, q: char): string
  {
    if s == [] then "" else EscapeChar(s[0], q) + EscapeAll(s[1..], q)
  }

  /** `repr(s)` of a string: single quotes unless the text holds a single quote and
      no double quote. */
  function ReprStr(s: string): string
  {
    var q := if '\'' in s && '"' !in s then '"' else '\'';
    [q] + EscapeAll(s, q) + [q]
  }

  /** `repr(j)`, which is also how `str()` writes the members of a list or dict. */
  function Repr(j: Json): string
    decreases j
  {
    match j
    case JNull => "None"
    case JBool(b) => if b then "True" else "False"
    case JInt(i) => IntToStr(i)
    case JStr(s) => ReprStr(s)
    case JList(xs) =>
      "[" + Join(", ", seq(|xs|, i requires 0 <= i < |xs| => Repr(xs[i]))) + "]"
    case JObj(fs) =>
      "{" + Join(", ", seq(|fs|, i requires 0 <= i < |fs| => ReprStr(fs[i].0) + ": " + Repr(fs[i].1))) + "}"
  }

  /** `str(j)` */
  function Str(j: Json): string
  {
    if j.JStr? then j.s else Repr(j)
  }

  /** `int(j)`: `None` where Python raises `ValueError` or `TypeError`. */
  function IntOf(j: Json): Option<int>
  {
    match j
    case JInt(i) => Some(i)
    case JBool(b) => Some(BoolToInt(b))
    case JStr(s) => ParseInt(s)
    case _ => None
  }
}
