/**
 * The values `json.loads` produces, and the few Python operations the core
 * applies to them: truthiness, `dict.get`, hashability and `str()`.
 * `json.loads` itself is not modelled: every component receives it as a
 * parameter `parse` of type `string -> Option<Value>`, where `None` stands
 * for a `JSONDecodeError`.
 */
module Json {
  import opened Wrappers
  import opened Text

  /**
   * A decoded JSON document. `Obj` lists the members of the Python dict in
   * document order; `Num` covers integers only.
   */
  datatype Value =
    | Null
    | Bool(b: bool)
    | Num(n: int)
    | Str(s: string)
    | Arr(items: seq<Value>)
    | Obj(fields: seq<(string, Value)>)

  /** No member after position `j` is named `key`. */
  ghost predicate LastNamed(fields: seq<(string, Value)>, key: string, j: int) {
    forall k :: j < k < |fields| && 0 <= k ==> fields[k].0 != key
  }

  /**
   * Python's `d.get(key)` on the dict `json.loads` builds: the value of the
   * last member named `key` (a repeated name keeps its last value), or None
   * (`Null`) when there is none.
   */
  function Get(fields: seq<(string, Value)>, key: string): (r: Value)
    ensures (forall i :: 0 <= i < |fields| ==> fields[i].0 != key) ==> r == Null
    ensures forall j :: 0 <= j < |fields| && fields[j].0 == key && LastNamed(fields, key, j) ==> r == fields[j].1
  {
    if fields == [] then Null
    else if fields[|fields| - 1].0 == key then fields[|fields| - 1].1
    else
      var init := fields[..|fields| - 1];
      var r := Get(init, key);
      assert forall i :: 0 <= i < |init| ==> init[i] == fields[i];
      r
  }

  /** Python's truth value of a decoded JSON value (`if not v`). */
  predicate Truthy(v: Value) {
    match v
    case Null => false
    case Bool(b) => b
    case Num(n) => n != 0
    case Str(s) => s != ""
    case Arr(items) => items != []
    case Obj(fields) => fields != []
  }

  /** Lists and dicts cannot be dictionary keys: using one raises TypeError. */
  predicate Hashable(v: Value) {
    !v.Arr? && !v.Obj?
  }

  function StrValues(xs: seq<string>): (r: seq<Value>)
    ensures |r| == |xs|
    ensures forall i :: 0 <= i < |xs| ==> r[i] == Str(xs[i])
  {
    seq(|xs|, i requires 0 <= i < |xs| => Str(xs[i]))
  }

  /** The strings of a JSON array whose items are all strings. */
  function AsStrings(v: Value): (r: Option<seq<string>>)
    ensures r.Some? <==> v.Arr? && forall i :: 0 <= i < |v.items| ==> v.items[i].Str?
    ensures r.Some? ==> Arr(StrValues(r.value)) == v
  {
    if v.Arr? && forall i :: 0 <= i < |v.items| ==> v.items[i].Str? then
      var xs := seq(|v.items|, i requires 0 <= i < |v.items| => v.items[i].s);
      assert StrValues(xs) == v.items;
      Some(xs)
    else None
  }

  /** Reading the strings back from their JSON array gives the same strings. */
  lemma AsStringsOfStrValues(xs: seq<string>)
    ensures AsStrings(Arr(StrValues(xs))) == Some(xs)
  {
    var r := AsStrings(Arr(StrValues(xs)));
    assert r.Some?;
    var ys := r.value;
    assert StrValues(ys) == StrValues(xs);
    assert |ys| == |xs|;
    forall i | 0 <= i < |xs| ensures ys[i] == xs[i] {
      assert StrValues(ys)[i] == Str(ys[i]);
      assert StrValues(xs)[i] == Str(xs[i]);
    }
    assert ys == xs;
  }

  /** The character escapes Python's `repr` uses inside a quoted string. */
  function EscapeChar(c: char, quote: char): string {
    if c == '\\' then "\\\\"
    else if c == '\n' then "\\n"
    else if c == '\r' then "\\r"
    else if c == '\t' then "\\t"
    else if c == quote then ['\\', quote]
    else [c]
  }

  function Escape(s: string, quote: char): string {
    if s == [] then "" else EscapeChar(s[0], quote) + Escape(s[1..], quote)
  }

  /** Python's `repr` of a string: double quotes only when that avoids escaping a single quote. */
  function ReprString(s: string): string {
    var quote := if '\'' in s && '"' !in s then '"' else '\'';
    [quote] + Escape(s, quote) + [quote]
  }

  /** Python's `str()` and `repr` of None, a boolean or an integer (they agree). */
  function ScalarDisplay(v: Value): string
    requires v.Null? || v.Bool? || v.Num?
  {
    match v
    case Null => "None"
    case Bool(b) => if b then "True" else "False"
    case Num(n) => IntToString(n)
  }

  /** Python's `repr` of a decoded JSON value, as used inside container displays. */
  function Repr(v: Value): string
  {
    match v
    case Str(s) => ReprString(s)
    case Arr(items) =>
      "[" + Join(seq(|items|, i requires 0 <= i < |items| => Repr(items[i])), ", ") + "]"
    case Obj(fields) =>
      "{" + Join(seq(|fields|, i requires 0 <= i < |fields| => ReprString(fields[i].0) + ": " + Repr(fields[i].1)), ", ") + "}"
    case _ => ScalarDisplay(v)
  }

  /** Python's `str()` (what an f-string interpolates) of a decoded JSON value. */
  function Display(v: Value): (r: string)
    ensures v.Str? ==> r == v.s
    ensures v.Null? ==> r == "None"
  {
    match v
    case Str(s) => s
    case Arr(_) => Repr(v)
    case Obj(_) => Repr(v)
    case _ => ScalarDisplay(v)
  }
}
